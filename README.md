# noon: path bookkeeping and scene state, in Dafny

This project models two sequential pieces of the noon animation engine and proves what their code promises.

The first piece is the path-length bookkeeping in `src/path.rs`:
- `combine_vectors_with_ordering` merges two cumulative-length vectors after normalising each by its own total. It is a two-pointer loop with a strict `<` tie rule, and it drops the entries of the second vector that are left when the first runs out.
- The parts of `Path::interp` (path morphing) that are not library calls: clamping of the progress, the two boundary short-cuts, the running "line lengths", the interval vectors, and the zip-then-close shape of the result.
- `GetPartial::upto` truncates a flattened path at `ratio` of its length. It cuts the first overshooting segment at the exact crossing.

The second piece is the scene in `noon/src/scene.rs`:
- the `Bounds` edge accessors;
- the `Scene` state machine over `event_time`, `clock_time` and `creation_count`, driven by `new`, `increment_counter`, `wait`, `wait_for` and `update`;
- the ordering constraints of the parallel "update" stage.

Numbers are `real` instead of `f32`. A flattened path is a sequence of `Begin` / `Line` / `End` events. The Euclidean length of a segment is a parameter that is only known to be non-negative.

Files:
- `path_model.dfy`: points, flattened events, builder commands, total Line length.
- `combine.dfy`: the merge, proved equal to a recursive specification; its properties.
- `interp.dfy`: the morph.
- `partial.dfy`: `upto`, proved equal to a recursive walk; where the walk cuts.
- `scene.dfy`: `Bounds`, `Depth`, and the `Scene` class.
- `stage.dfy`: the update stage as placements against the `Regular` label, and the executions they admit.

Where the code does less than its own comments or the documented behaviour suggest, the model follows the code:
- The merge is not a union of both breakpoint sets, as the comment "Combine two vectors which are both monotonically increasing by normalized ordering" (src/path.rs:120) may suggest. `v2` entries not below the last `v1` entry are dropped. For non-decreasing inputs with positive totals, as that comment assumes, the output has `|v1|` entries plus the number of normalised `v2` entries below 1, and the last `v2` entry is always among the dropped ones (`CombinedProperties`). With an unsorted `v1` this fails: `[2, 1]` and `[1]` give `[1, 2, 1]` (`UnsortedKeepsLastOfV2`).
- `update` takes only `now`. The bounds are set once, in `new`.
- A morph between paths with no Line cannot be computed: `unwrap` fails on an empty length vector. The step list at src/path.rs:40-46 assumes a continuous shape; there is no fallback to a copy of one endpoint.

## Model

| member | source | states |
|---|---|---|
| `PathModel.Lerp` | src/path.rs:196 | interpolating at 0 gives the start point and at 1 the end point |
| `PathModel.LineTotal` | src/path.rs:154-163 | the total length of the Line events of a flattened path is never negative |
| `PathModel.VerbatimAll` | src/path.rs:187-205 | `upto`'s match arms applied to every event give one builder command per event: `move_to`, `line_to` to the segment end, and `close` for every End |
| `CombineVectors.Taken` | src/path.rs:129-136 | the number of leading `v2` entries below a bound: all of those entries are below it, and the next one is not |
| `CombineVectors.Merge` | src/path.rs:127-138 | the loop as a recursion over the normalised vectors: the next `v2` entry goes first only while strictly below the current `v1` entry (the `peek`/`break` at lines 129-135), every `v1` entry is pushed, and `v2` entries left when `v1` runs out are dropped |
| `CombineVectors.Combined` | src/path.rs:124-138 | each vector divided by its own last entry, then merged; `CombineVectorsWithOrdering` is proved equal to it, and `CombinedProperties` and `UnsortedKeepsLastOfV2` state what it gives |
| `CombineVectors.CombineVectorsWithOrdering` | src/path.rs:121-141 | for non-empty inputs with non-zero totals, the loop returns exactly the merge of `v1/s1` with `v2/s2` in which a `v2` entry goes first only when strictly below the current `v1` entry, and `v2` leftovers are dropped |
| `CombineVectors.MergeSorted` | src/path.rs:128-138 | the merge of two non-decreasing vectors is non-decreasing |
| `CombineVectors.MergeKeepsA` | src/path.rs:128-138 | every normalised `v1` entry appears in the merge, in order, at strictly increasing positions |
| `CombineVectors.MergeEndsWithA` | src/path.rs:128-138 | the merge of a non-empty `v1` is non-empty and ends with `v1`'s last entry, since every `v1` entry is pushed and leftovers of `v2` are dropped |
| `CombineVectors.MergeKeepsTakenB` | src/path.rs:129-136 | when `v1` is non-decreasing, the leading `v2` entries below `v1`'s last entry appear, in order, at strictly increasing positions |
| `CombineVectors.MergeContents` | src/path.rs:128-138 | when `v1` is non-decreasing, the merge holds exactly the `v1` entries and the leading `v2` entries below `v1`'s last entry, as a multiset; for a non-decreasing `v2` these are all its entries below that bound (`TakenSplitsSorted`) |
| `CombineVectors.MergeLength` | src/path.rs:128-138 | the merge has `|v1|` entries plus the number of leading `v2` entries below `v1`'s last entry |
| `CombineVectors.TakenSplitsSorted` | src/path.rs:129-136 | in a non-decreasing `v2`, every entry after the emitted prefix is at or above the bound, so it is dropped |
| `CombineVectors.NormalisedEndsAtOne` | src/path.rs:124-131 | a vector divided by its own last entry ends at exactly 1 |
| `CombineVectors.NormaliseSorted` | src/path.rs:124-131 | dividing a non-decreasing vector by a positive total keeps it non-decreasing |
| `CombineVectors.CombinedProperties` | src/path.rs:121-141 | for non-decreasing inputs with positive totals, the result is non-decreasing and ends at 1; its length is `|v1|` plus the number of normalised `v2` entries below 1, which is less than `|v2|`; every normalised `v2` entry left out is at or above 1 |
| `CombineVectors.CheckVectorOrdering` | src/path.rs:289-295 | the unit test's inputs give the nine entries `[0, 0.1, 0.25, 0.275, 0.3, 0.4, 0.6, 0.8, 1]` |
| `CombineVectors.UnsortedKeepsLastOfV2` | src/path.rs:127-138 | without a non-decreasing `v1` the last `v2` entry can be emitted: `[2, 1]` and `[1]` combine to `[1, 2, 1]`, so `CombinedProperties` needs its requires |
| `PathInterp.Clamp` | src/path.rs:33 | the clamped progress lies in [0, 1]: it is the progress itself inside [0, 1], 1 above and 0 below |
| `PathInterp.RunningSums` | src/path.rs:53-61 | the `scan`: each entry is the previous running total plus the next Line length, starting from the given start |
| `PathInterp.LineLengths` | src/path.rs:48-63 | `get_line_lengths`: the running sums from 0 of the lengths of the flattened Line events, in order |
| `PathInterp.SegmentLengths` | src/path.rs:52-57 | one non-negative length per Line event |
| `PathInterp.RunningSumsAt` | src/path.rs:53-61 | the `scan` yields one running sum per length, the i-th being the start plus the first i+1 lengths |
| `PathInterp.RunningSumsSorted` | src/path.rs:53-61 | running sums of non-negative lengths never decrease and never fall below the start |
| `PathInterp.SumSegmentLengths` | src/path.rs:52-57 | the Line lengths add up to the path's total Line length |
| `PathInterp.LineLengthsProperties` | src/path.rs:48-63 | `get_line_lengths` has one entry per Line event, each the sum of the lengths so far; it is non-decreasing, and its last entry is the total length |
| `PathInterp.Intervals` | src/path.rs:73-84 | the interval vector has one entry fewer than the ratios (none for no ratios) |
| `PathInterp.IntervalsAt` | src/path.rs:73-84 | entry i of `lengths_k` is `(ratios[i+1] - ratios[i]) * len_k` |
| `PathInterp.IntervalsNonNegative` | src/path.rs:73-84 | for non-decreasing ratios and a non-negative length, no interval is negative |
| `PathInterp.IntervalsTelescope` | src/path.rs:73-84 | the intervals add up to `(last ratio - first ratio) * len` |
| `PathInterp.ZipLines` | src/path.rs:110-112 | the zip emits `min(|p1|, |p2|)` `line_to`s, the i-th to the blend of `p1[i]` and `p2[i]` at the progress |
| `PathInterp.Morphed` | src/path.rs:109-115 | the built morph: the zipped `line_to`s followed by one `close` |
| `PathInterp.Interp` | src/path.rs:31-117 | a clamped progress at most 0.001 returns `self`, and at least 0.999 returns `other`. In between, the result is `min(|p1|, |p2|)` `line_to`s to the blended walk positions, then one `close`. The walks run at the interval vectors of the combined ratios, scaled by each path's total |
| `PathInterp.MorphRatios` | src/path.rs:65-71 | the `ratios` of `interp`: the Line lengths of both paths combined by `combine_vectors_with_ordering`; `MorphRatiosProperties` states what they are |
| `PathInterp.MorphRatiosProperties` | src/path.rs:65-71 | the combined ratios of two measurable paths are non-decreasing, end at 1, and number at least the first path's Line events |
| `PathInterp.IntervalsOfRatios` | src/path.rs:73-84 | for non-decreasing ratios ending at 1, the intervals number one fewer, are non-negative, and span `(1 - first ratio) * len` |
| `PathInterp.MorphIntervals` | src/path.rs:73-84 | both interval vectors of a morph have one entry fewer than the ratios, and none is negative |
| `PartialPath.CutLandsOnStop` | src/path.rs:192-197 | on the first overshooting segment the length is positive (no division by zero), the cut ratio is in [0, 1), and the cut lands exactly on `stop_at` |
| `PartialPath.WalkUpto` | src/path.rs:183-208 | the loop as a recursion over the events: `length > stopAt` is the `break` at line 184; `Begin` emits `move_to`, `End` emits `close`; a Line within the stop emits `line_to(to)` and advances the length; an overshooting Line emits `line_to` to the cut point and stops |
| `PartialPath.StopAt` | src/path.rs:176-178 | `stop_at = ratio.max(0.0) * full_length` |
| `PartialPath.CutRatio` | src/path.rs:195 | `seg_ratio = 1 - (new_length - stop_at) / seg_length`, with `new_length = length + seg_length` |
| `PartialPath.Upto` | src/path.rs:172-211 | a ratio of 1 or more returns the path unchanged. Otherwise the loop's output is exactly the walk's commands from length 0 with `stop_at = max(ratio, 0) * full_length`, where `full_length` is the library's measure of the path, known only to be non-negative |
| `PartialPath.WalkStep` | src/path.rs:187-205 | one step of the walk keeps the commands emitted so far plus the rest of the walk equal to the whole walk: `Begin` gives `move_to`, `End` gives `close`; a Line within the stop gives `line_to(to)` and advances the length; an overshooting Line gives `line_to` to the cut point and ends the walk |
| `PartialPath.WalkComplete` | src/path.rs:183-208 | when the path fits within the stop, every event gets its match arm's command (every End a `close`), no segment is cut, and the running length ends at the total |
| `PartialPath.WalkCutPoint` | src/path.rs:183-208 | when the stop lies inside the path, the walk emits the match arm's command for each event before the crossing Line, then one `line_to` to that segment's point at the cut ratio (in [0, 1)), and stops |
| `PartialPath.WalkWithinStop` | src/path.rs:183-200 | from a length within the stop, the running length never exceeds the stop, so the early `break` never fires; a segment is cut exactly when the path is longer than the stop |
| `PartialPath.StopInside` | src/path.rs:176-178 | for `0 <= ratio < 1` and a positive length, `stop_at` is `ratio` times the length and lies in [0, length) |
| `PartialPath.StopNonNegative` | src/path.rs:176-178 | a non-negative full length gives a non-negative `stop_at` for any ratio |
| `PartialPath.UptoCutsBelowTotal` | src/path.rs:172-211 | for any non-negative full length whose `stop_at` lies below the flattened Line total, `upto` cuts the Line on which the running length crosses `stop_at`: the match arm's command for each event before it, then one `line_to` at the cut ratio, which lands exactly on `stop_at` |
| `PartialPath.UptoKeepsAll` | src/path.rs:172-211 | for any non-negative full length whose `stop_at` reaches the flattened Line total, nothing is cut: every event gets its match arm's command, every End a `close` |
| `PartialPath.UptoCutsAtRatio` | src/path.rs:152-211 | the corollary for a full length equal to the flattened Line total, as the commented-out loop at lines 154-163 computes it: for `0 <= ratio < 1` and a positive length, `upto` always cuts the crossing Line, at the cut ratio that lands on `stop_at` |
| `PartialPath.FlattenTest` | src/path.rs:238-243 | the test's `move_to`, `line_to` of length 10 and `close`, at ratio 0.5: a full length of 10 cuts at the segment's midpoint; a full length of 20 keeps the whole line and the `close` |
| `SceneState.Bounds.EdgeUpper` | noon/src/scene.rs:22-24 | `rect.y.end`; see `EdgesOfRect` and `EdgesRebuildBounds` |
| `SceneState.Bounds.EdgeLower` | noon/src/scene.rs:25-27 | `rect.y.start`; see `EdgesOfRect` and `EdgesRebuildBounds` |
| `SceneState.Bounds.EdgeLeft` | noon/src/scene.rs:28-30 | `rect.x.start`; see `EdgesOfRect` and `EdgesRebuildBounds` |
| `SceneState.Bounds.EdgeRight` | noon/src/scene.rs:31-33 | `rect.x.end`; see `EdgesOfRect` and `EdgesRebuildBounds` |
| `SceneState.EdgesRebuildBounds` | noon/src/scene.rs:22-33 | the four edges rebuild the bounds exactly, so no accessor loses or swaps an end |
| `SceneState.EdgesOfRect` | noon/src/scene.rs:19-33 | upper is `y.end`, lower is `y.start`, left is `x.start` and right is `x.end` of the window rectangle |
| `SceneState.DepthOf` | noon/src/scene.rs:154 | the depth of the n-th object is n / 10 |
| `SceneState.DepthOfIncreasing` | noon/src/scene.rs:148-155 | a later count gives a strictly greater depth |
| `SceneState.Scene.constructor` | noon/src/scene.rs:139-146 | a new scene holds the window as its bounds and a default time. Its event clock is 0.5, its wall clock 0 and its creation count 0, and no depth has been handed out |
| `SceneState.Scene.IncrementCounter` | noon/src/scene.rs:152-155 | the count grows by exactly 1 and the returned depth is the new count / 10. It is strictly above every depth handed out before, and nothing else changes |
| `SceneState.Scene.Update` | noon/src/scene.rs:177-184 | the `Time` resource's seconds and the wall clock become `now`; the event clock, bounds and count are unchanged |
| `SceneState.Scene.Wait` | noon/src/scene.rs:197-199 | the event clock moves on by 1; nothing else changes |
| `SceneState.Scene.WaitFor` | noon/src/scene.rs:201-203 | the event clock moves on by `time`; nothing else changes |
| `SceneState.IssuedDepthsIncrease` | noon/src/scene.rs:148-155 | the depths a scene hands out strictly increase with creation order |
| `SceneState.CreateTwo` | noon/src/scene.rs:152-203 | two objects created around waits and an update get strictly increasing depths; the waits add up on the event clock |
| `UpdateStage.PlacementsDiffer` | noon/src/scene.rs:104-127 | the as-written and intended placements differ exactly on the Regular systems other than the two Size ones, which the code leaves unlabelled |
| `UpdateStage.InUpdateStage` | noon/src/scene.rs:103-128 | the systems added to the update stage: `update_previous::<Size>`, `init_from_target` at every attribute, `animate_position`, `animate` at every attribute but `Position`, `update_path_from_size_change` and `print` |
| `UpdateStage.AsWrittenPlacement` | noon/src/scene.rs:104-127 | the placements as written: `update_previous::<Size>` before the label; only `init_from_target::<Size>` and `animate::<Size>` carry it; the three Path systems after it; every other system unordered |
| `UpdateStage.AsWrittenSizeOrdering` | noon/src/scene.rs:104-127 | in every admitted execution, `update_previous::<Size>` runs before `init_from_target::<Size>` and `animate::<Size>`, and each Path system runs after both |
| `UpdateStage.AsWrittenUnconstrained` | noon/src/scene.rs:105-123 | as written, a Regular system other than the Size ones is ordered against no system at all |
| `UpdateStage.AsWrittenAllowsPathFirst` | noon/src/scene.rs:124-127 | as written, the stage admits an execution that runs the Path systems before `animate::<PathCompletion>`; the intended placements reject it |
| `UpdateStage.IntendedRegularBeforePath` | noon/src/scene.rs:104-127 | with the label on the whole Regular group, every execution runs each Regular system after `update_previous::<Size>` and before each Path system |
| `UpdateStage.IntendedNarrowsAsWritten` | noon/src/scene.rs:103-128 | the intended placements admit only executions that the as-written ones admit too |
| `UpdateStage.IntendedAdmitsLayered` | noon/src/scene.rs:103-128 | the intended placements can be met: they admit the three-step layered execution |

## Findings

| source | as written | input that shows it | evidently intended | confidence | as-written member | corrected member |
|---|---|---|---|---|---|---|
| noon/src/scene.rs:104-127 | only `init_from_target::<Size>` and `animate::<Size>` carry `Label::Regular`, so `.after(Label::Regular)` orders the three Path systems after those two only | the execution `PathFirstRun`: `update_previous::<Size>`, then the two Size systems, then `init_from_target::<Path>`, `animate::<Path>` and `update_path_from_size_change`, then `animate::<PathCompletion>` and the rest; the stage admits it | the comment at line 105 opens the "Regular systems" (lines 106-123), and the comment at line 124 says the Path systems run after all of them, so each of lines 106-123 carries the label | low; not executed | `UpdateStage.AsWrittenAllowsPathFirst` | `UpdateStage.IntendedRegularBeforePath` |

## Left out

- A flattened `End` carries whether its sub-path is closed. `upto` ignores it (src/path.rs:203-205) and closes every sub-path it walks to the end, so an open sub-path comes out closed. The model's `End` has no such flag, and `Verbatim` maps every End to `close`, as `upto` does.
- Flattening a path (`flattened(tol)`) is library code. It enters as the parameter `flatten`, with the tolerance folded in. Flattened paths hold no curve events, so the `_ => ()` arm of `upto` has no counterpart.
- The library's `approximate_length` (src/path.rs:153) enters `Upto` as the parameter `measure`, known only to be non-negative. How it treats the closing side of a path is not known here. `UptoCutsBelowTotal` and `UptoKeepsAll` cover both outcomes; `UptoCutsAtRatio` assumes it equals the flattened Line total.
- The lyon path builder: a built path is modelled as the sequence of commands given to the builder (`Path`), not as the result of `builder.build()` (src/path.rs:115, 209). The rows for `Interp` and `Upto` describe those commands.
- `walk_along_path` with `RepeatedPattern` (the positions reached at the given intervals) is library code and enters as the parameter `walk`. What it reports is not modelled.
- Point interpolation (`p1.interp(p2, progress)`) and `lerp`'s `f32` formula: `interp` enters as the parameter `blend`, and `Lerp` is the exact real formula.
- `f32` behaviour: rounding, NaN and infinity. `Clamp` does not model NaN progress. Segment length (`(to - from).length()`, a square root) enters as the parameter `segLen`, known only to be non-negative.
- `CombineVectors.CombineVectorsWithOrdering`: it requires non-zero totals. With `f32` a zero total divides to infinity or NaN instead of failing, and reals cannot represent that. `PathInterp.Interp` requires the same of both paths in the middle range.
- `PathInterp.MorphIntervals`: it does not state how much of each path the intervals span. That is `IntervalsOfRatios`, for any ratios meeting its requires, which `MorphRatiosProperties` establishes for the morph.
- `SceneState.Scene.IncrementCounter`: it requires the count below the `u32` maximum. `+=` fails on overflow in debug builds and wraps in release builds, and the wrap is not modelled. `DepthOf` divides exactly, while `creation_count as f32 / 10.0` rounds. From about 10,485,760 objects on, the `f32` spacing (0.125) exceeds 0.1, and consecutive counts can get the same depth (10,485,762 and 10,485,763 both give 1048576.25). So the strict increase that `IncrementCounter` and `IssuedDepthsIncrease` state holds in `f32` only below about 10^7 objects.
- The `Time` type is not shown. Only its `seconds` is modelled, as `timeSeconds`, and its default is taken to be 0.0.
- The ECS world and schedules: `updater.run`, the parallel executor, and the bodies of the update systems (`update_previous`, `init_from_target`, `animate`, `animate_position`, `update_path_from_size_change`, `print`). The stage model keeps only the label placements and the executions they admit.
- Drawing: `draw`, the draw stage and the `draw_*` systems are rendering output.
- `circle`, `rectangle`, `line`, `text`, `add_circle` and `play` build objects and animations through code not shown here. `add_circle` also uses a random colour.
- noon/src/object/mod.rs holds only marker components and builder setters.
- The tests `partial_path`, `iter_check`, `length`, `check_walk` and `circle` print and assert nothing. The `flatten` test prints only; its input is worked through in `FlattenTest`.
