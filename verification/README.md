# Learned indexes and batched lookups: a Dafny model

Four index structures over sorted keys, and the loops that interleave many lookups in them,
are modelled here and proved against the plain sorted array or map they stand for.
`dafny verify dfyconfig.toml` checks everything.

## What is modelled

**PGM-index.** The streaming fit accepts points while one line passes within epsilon of all
of them. It keeps two extreme lines and two partial hulls (`Geometry`, `Hull`, `HullStep`,
`PiecewiseLinearModel`). A point is accepted if and only if some line stabs all intervals,
so the greedy segmentation has the fewest runs possible (`Segmentation`). Slope truncation
and intercept rounding cost exactly the slack that the window and the descent allow
(`PgmSegment`, `PgmLevel`). Levels stack up to one root, and the window returned for any
query below the sentinel holds the query's lower-bound rank (`PgmIndex`).

**LIPP.** Nodes are objects with a local invariant: each slot holds exactly the part of the
node's map that the model sends there (`LippModel`, `LippMaps`, `LippNode`). Inserts, the
bulk builders with their explicit stack, flattening, rebuilding and the free list of two-key
nodes keep that invariant (`LippBuild`, `LippBulk`, `LippScan`, `LippInsert`, `LippTree`).
An insert rebuilds the topmost subtree on its way that becomes due, and nothing else; every
node of a new tree has the model its builder prescribes for exactly its keys. How many keys
may share a slot of a new node is the subject of `LippGroups`. The tree is a map over every
run of operations (`LippRuns`).

**RadixSpline.** The table over key prefixes narrows the search for a spline segment without
changing its result; the window covers every key that is present and the rank of every key
that is not (`RadixSpline`, `RadixSplineBuilder`). The second implementation's greedy choice of spline points is in
`GreedySpline`.

**B+ tree.** A uniform-depth search tree of nodes with sorted slots and the searches inside
one node, among them the sign-flipped block scan (`BTree`).

**Schedulers.** Rotating pipelines (`Pipeline`, `PgmPipeline`, `BTreePipeline`), a shifting
pipeline (`BTreeShift`), pools of state machines and a task window (`Pool`, `PgmAmac`,
`LippLookup`), and group loops (`PgmGroups`, `BTreeGroups`). All of them drain, and return
for every group or pool size what the one-at-a-time loop returns.

Keys and positions are unbounded integers, slopes and predictions are exact rationals or
reals. The proofs rest on `SortedSeq` (ranks in sorted sequences) and `BatchSearch` (what a
batch lookup must return).

## Where the code and its documentation differ

- `segment_for_key` promises the rightmost segment with key not beyond the query. With a
  recursive epsilon and a single level the loop does not run, and a query above the greatest
  key is answered by segment 0 even when an end segment follows it.
  `PgmIndex.PGMIndex.SegmentForKey` states the exact condition, and
  `PgmRightmost.RightmostMissed` gives 64-bit keys for which it holds (the float product
  the source computes for the decisive key is 3.0, as in exact arithmetic). The window is right
  all the same, because segment 0's prediction is clamped by the next intercept.
- A comment in `make_segmentation` says the values after a run of duplicates are mapped to
  their correct rank i. Their lower-bound rank is i + 1 (`Segmentation.PointRank`, with an
  input in `Segmentation.GapPointLags`); the upper end of the window absorbs that.
- A comment in `builder.hpp` says the window covers the position in most cases.
  `RadixSplineBuilder.PresentKeyCovered` shows that it always does, thanks to the + 2 at the
  upper end. It need not cover the first occurrence of a repeated key:
  a lookup of any key but the least gets the first one unless a sampled position more than
  max_error past it holds the key as well (`RadixSplineBuilder.FirstOccurrenceFound`), which
  `RadixSplineBuilder.FirstOccurrenceMissed` shows to happen.
- A search that began every degree anew would accept only degrees all of whose windows span
  a unit. The FMCD search carries its index over from one degree to the next, which is sound
  for the windows passed, but it may never look at the last window (`LippModel.FmcdSearch`,
  `LippModel.LastWindow`, `LippModel.LastWindowNarrow`).
- The assertion that a slot gets at most (size + 2) / 3 keys is disabled in `lipp.h`. In
  either builder it holds exactly when no more keys than that are predicted beyond half of
  INT_MAX (`LippGroups.Thirds`), where the guard sends them all to the last slot. It fails
  for the keys 0 to 10^9 - 1 under the search (`LippGroups.FmcdThirdsMissed`) and for a
  billion keys with one wide gap under the split (`LippGroups.SplitThirdsMissed`). The
  builders end all the same, because the first and the last key are always separated.

## Model

| member | source | states |
|---|---|---|
| `PiecewiseLinearModel.OptimalPiecewiseLinearModel.AddPoint` | include/structures/PGM/PGM_index/piecewise_linear_model.hpp:96-188 | A point is accepted exactly when some real line passes through the intervals of the whole run and the new one; it is rejected exactly when none does; it is out of order exactly when x does not increase, and then nothing changes |
| `PiecewiseLinearModel.OptimalPiecewiseLinearModel.AddFirst` | include/structures/PGM/PGM_index/piecewise_linear_model.hpp:106-117 | The first point starts a run of its own, stabbable, in the representation invariant |
| `PiecewiseLinearModel.OptimalPiecewiseLinearModel.AddSecond` | include/structures/PGM/PGM_index/piecewise_linear_model.hpp:119-126 | The second point always joins the run; the two extreme lines are then the diagonals |
| `PiecewiseLinearModel.OptimalPiecewiseLinearModel.AddLater` | include/structures/PGM/PGM_index/piecewise_linear_model.hpp:128-188 | From the third point on: acceptance keeps the whole invariant of hulls, start indices and rectangle; rejection means no line stabs the longer run and leaves the rectangle to be read out |
| `PiecewiseLinearModel.OptimalPiecewiseLinearModel.UpdateUpper` | include/structures/PGM/PGM_index/piecewise_linear_model.hpp:138-160 | After the tangent scan with its early break, the advanced start index and the popped hull, both extreme lines respect every lower constraint and every upper one including the new one, and the live hull parts still imply all of them |
| `PiecewiseLinearModel.OptimalPiecewiseLinearModel.UpdateLower` | include/structures/PGM/PGM_index/piecewise_linear_model.hpp:162-184 | The mirror step, valid on the state the upper step has just left behind |
| `PiecewiseLinearModel.OptimalPiecewiseLinearModel.GetSegment` | include/structures/PGM/PGM_index/piecewise_linear_model.hpp:190-194 | The rectangle handed out spans two extreme lines that fit the run; a one-point run gives a one-point segment |
| `PiecewiseLinearModel.OptimalPiecewiseLinearModel.Reset` | include/structures/PGM/PGM_index/piecewise_linear_model.hpp:196-200 | An empty run in the representation invariant |
| `PiecewiseLinearModel.ExtremeLinesStab` | include/structures/PGM/PGM_index/piecewise_linear_model.hpp:96-188 | Both extreme lines, as real lines, pass through every interval [max(0, y - eps), min(max, y + eps)] of the run, points skipped or popped on the way included |
| `PiecewiseLinearModel.HitsIsNear` | include/structures/PGM/PGM_index/piecewise_linear_model.hpp:102-103 | Between the ends of the position range, hitting an interval is passing within eps of the point |
| `PiecewiseLinearModel.SlopeRange` | include/structures/PGM/PGM_index/piecewise_linear_model.hpp:265-272 | The range handed out is sharp: every line that stabs the run has a slope between those of the two extreme lines |
| `PiecewiseLinearModel.RejectionIsExact` | include/structures/PGM/PGM_index/piecewise_linear_model.hpp:128-136 | If either outside test fires, no real line stabs the run and the new point |
| `PiecewiseLinearModel.RectangleStabs` | include/structures/PGM/PGM_index/piecewise_linear_model.hpp:190-194 | A rectangle that fits a run witnesses a line stabbing it |
| `PiecewiseLinearModel.FindMinSlope` | include/structures/PGM/PGM_index/piecewise_linear_model.hpp:139-148 | The scan that stops at the first increase finds the tangent: turns on both sides of the index face the right way |
| `PiecewiseLinearModel.FindMaxSlope` | include/structures/PGM/PGM_index/piecewise_linear_model.hpp:163-172 | The mirror scan |
| `PiecewiseLinearModel.PopUpper` | include/structures/PGM/PGM_index/piecewise_linear_model.hpp:155-158 | Exactly the points that would make the hull non-convex are dropped, never past the start index |
| `PiecewiseLinearModel.PopLower` | include/structures/PGM/PGM_index/piecewise_linear_model.hpp:179-182 | The mirror pops |
| `PiecewiseLinearModel.SlopeOrderIsTurn` | include/structures/PGM/PGM_index/piecewise_linear_model.hpp:50-59 | Comparing two slopes seen from a point by cross-multiplication is the orientation test of the three points |
| `Geometry.HeightIsCross` | include/structures/PGM/PGM_index/piecewise_linear_model.hpp:78-82 | The cross product of O, A, B is, up to sign, the height of B over the line from O to A |
| `Hull.Push` | include/structures/PGM/PGM_index/piecewise_linear_model.hpp:155-159 | A point pushed after the pops leaves a convex chain |
| `Hull.Tangent` | include/structures/PGM/PGM_index/piecewise_linear_model.hpp:140-148 | A local tangent of a convex chain is a global one: every chain point lies on its far side |
| `Hull.PopSound` | include/structures/PGM/PGM_index/piecewise_linear_model.hpp:155-158 | A line that respects the kept points and the new one respects every popped point too |
| `HullStep.TakeStep` | include/structures/PGM/PGM_index/piecewise_linear_model.hpp:138-160 | One constraint taken: extreme lines, chains and completeness all carry over to the advanced and popped chains |
| `HullStep.SkipStep` | include/structures/PGM/PGM_index/piecewise_linear_model.hpp:138-162 | A constraint that does not cut an extreme line may be left out of the hulls: nothing is lost |
| `HullStep.FeasibleThrough` | include/structures/PGM/PGM_index/piecewise_linear_model.hpp:128-136 | Between an extreme line that respects a point and one that does not, some feasible line passes exactly through it |
| `Segmentation.MakeSegmentation` | include/structures/PGM/PGM_index/piecewise_linear_model.hpp:276-320 | For every nondecreasing key sequence: the segments fit consecutive runs covering all fed points, each run maximal, and their number is the fewest any partition into stabbable runs can have |
| `Segmentation.GreedyStaysAhead` | include/structures/PGM/PGM_index/piecewise_linear_model.hpp:280-286 | The i-th run of the greedy cut starts no earlier than that of any other cut into stabbable runs |
| `Segmentation.GreedyIsMinimal` | include/structures/PGM/PGM_index/piecewise_linear_model.hpp:280-286 | A greedy cut has at most as many runs as any other cut into stabbable runs |
| `Segmentation.SegmentationIsMinimal` | include/structures/PGM/PGM_index/piecewise_linear_model.hpp:276-320 | Any segmentation of that kind, not just the one computed, attains the minimum, and the minimum is attained |
| `Segmentation.SegmentsStabbable` | include/structures/PGM/PGM_index/piecewise_linear_model.hpp:276-320 | Every emitted segment comes with a line that stabs its run |
| `Segmentation.PointsOk` | include/structures/PGM/PGM_index/piecewise_linear_model.hpp:288-316 | The fed points have strictly increasing x and nondecreasing positions; keys between two of them have ranks between theirs; the last one maps beyond the greatest key to n |
| `Segmentation.PointRank` | include/structures/PGM/PGM_index/piecewise_linear_model.hpp:288-316 | A fed point has its rank as position if and only if its key is present or it is the last point; every other one, fed after a run of duplicates, is exactly one short |
| `Segmentation.GapPointLags` | include/structures/PGM/PGM_index/piecewise_linear_model.hpp:291-301 | Keys 5, 5, 9: 6 is fed with position 1 although its rank is 2 |
| `Segmentation.KeyIsFed` | include/structures/PGM/PGM_index/piecewise_linear_model.hpp:288-307 | Every key present, duplicated or not, is fed with its lower-bound rank |
| `Segmentation.DistinctPoints` | include/structures/PGM/PGM_index/piecewise_linear_model.hpp:288-316 | Over distinct keys the points are exactly (key, index), and one more for the end |
| `Segmentation.RunCoversTwoEps` | include/structures/PGM/PGM_index/piecewise_linear_model.hpp:276-320 | Over distinct keys every run but the last covers at least 2 eps + 1 points |
| `Segmentation.LevelShrinks` | include/structures/PGM/PGM_index/pgm_index.hpp:102-126 | A level over more than one distinct key has fewer segments than keys, by a factor of about 2 eps + 1 |
| `PgmSegment.SegmentModels` | include/structures/PGM/PGM_index/piecewise_linear_model.hpp:245-256 | The stored segment is the steepest line that stabs its run, its height at the first key rounded to the nearest integer (the lower of two; the middle of the interval for a single point), and errs by at most eps, and one more below, on every point of its run; the conversion never sees a negative intercept |
| `PgmSegment.InterceptIsNearest` | include/structures/PGM/PGM_index/piecewise_linear_model.hpp:251-254 | For every rectangle that fits a run of several points, at its first key: twice the distance of the stored intercept from the steeper line, over the line's denominator d, is at least -d and less than d |
| `PgmSegment.StoredLineUnique` | include/structures/PGM/PGM_index/piecewise_linear_model.hpp:245-256 | Key, slope and intercept of a segment stored for a run are thereby determined |
| `PgmIndex.StoredLines` | include/structures/PGM/PGM_index/pgm_index.hpp:250-252 | In a built index every segment stored for a run, on every level, is that line with that intercept |
| `PgmSegment.PositionIsFloor` | include/structures/PGM/PGM_index/pgm_index.hpp:254-261 | The predicted position is the intercept plus the slope product rounded down |
| `PgmSegment.RoundToNearest` | include/structures/PGM/PGM_index/piecewise_linear_model.hpp:253-254 | The sign-dependent rounding term with truncating division rounds the (never positive) numerator to the nearest integer: off by at most half, a tie going down |
| `PgmSegment.PositionBounds` | include/structures/PGM/PGM_index/pgm_index.hpp:254-261 | Truncated product plus rounded intercept lies between the exact bounds, one lower at worst, and exactly inside at the origin |
| `PgmLevel.PredictionNearRank` | include/structures/PGM/PGM_index/pgm_index.hpp:192-196 | For every key from the first to the sentinel, present or not, the clamped prediction is at most rank + eps and at least the position of the last fed point minus (eps + 1) |
| `PgmLevel.WindowHolds` | include/structures/PGM/PGM_index/pgm_index.hpp:32-33 | The -eps and +eps+2 around the clamped prediction, cut at 0 and n, always contain the lower-bound rank, in at most 2 eps + 2 positions |
| `PgmLevel.InWindow` | include/structures/PGM/PGM_index/pgm_index.hpp:32-33 | The two macros cut out exactly the positions from eps below to eps + 1 above |
| `PgmLevel.LevelTail` | include/structures/PGM/PGM_index/pgm_index.hpp:102-112 | What follows the runs of a level: nothing if the last one is the sentinel, else the sentinel with the level size, and an end segment before it if and only if the last line does not reach the level size just before the sentinel |
| `PgmLevel.PresentKeyWindow` | include/structures/PGM/algorithms/GroupPrefetch.hpp:74-89 | Without the clamp by the next intercept the window still holds the rank of every key that is present |
| `PgmLevel.DescentStart` | include/structures/PGM/PGM_index/pgm_index.hpp:140-147 | One level down, the prediction minus EpsilonRecursive + 1 starts at or left of the rightmost segment not beyond the key |
| `PgmLevel.BottomKeysSorted` | include/structures/PGM/PGM_index/pgm_index.hpp:134-157 | Segment keys of the bottom level are nondecreasing, the extra end segments included, so binary search over them is sound |
| `PgmIndex.PGMIndex.BuildLevel` | include/structures/PGM/PGM_index/pgm_index.hpp:102-112 | A level is appended, earlier ones untouched: the fitted segments of the maximal runs as stored, then the sentinel, and before it an end segment that maps keys above the last to the level size exactly when the last line falls short of it at the greatest key; the count returned excludes exactly a run that doubles as the sentinel |
| `PgmIndex.PGMIndex.AppendTail` | include/structures/PGM/PGM_index/pgm_index.hpp:104-110 | Nothing follows a last segment whose key is the sentinel; otherwise the sentinel does, after an end segment when one is needed |
| `PgmIndex.PGMIndex.Build` | include/structures/PGM/PGM_index/pgm_index.hpp:88-127 | Fails exactly when the greatest key is the sentinel; otherwise the levels form a stack of greedy segmentations, each over the several keys of the one below, up to a single root segment |
| `PgmIndex.PGMIndex.BuildUpperLevel` | include/structures/PGM/PGM_index/pgm_index.hpp:120-126 | Another level keeps the stack and has strictly fewer entries, so the loop ends at one |
| `PgmIndex.PushLevel` | include/structures/PGM/PGM_index/pgm_index.hpp:120-126 | A level built on the entries of the top one extends the stack |
| `PgmIndex.PGMIndex.Descend` | include/structures/PGM/PGM_index/pgm_index.hpp:140-155 | For any recursive epsilon, by linear scan or binary search, the segment found is responsible for the key and at most 2 epsilonRecursive + 3 right of the start; it is the rightmost one not beyond the key for the scan always and for the binary search at the bottom |
| `PgmLevel.DescentEnd` | include/structures/PGM/PGM_index/pgm_index.hpp:151-153 | The predicted position plus EpsilonRecursive + 2 lies right of the rightmost segment, unless that is an end segment and the key is that of the last run before it |
| `PgmLevel.BinaryStop` | include/structures/PGM/PGM_index/pgm_index.hpp:151-153 | A binary search over such a range, even where end keys are out of order, stops next to a segment that answers |
| `PgmIndex.PGMIndex.SegmentForKey` | include/structures/PGM/PGM_index/pgm_index.hpp:129-157 | For any recursive epsilon and number of levels the segment found is responsible for the key; it fails to be the rightmost one not beyond the key if and only if recursion is on, the index is one level of two counted segments, and the key is above the greatest key indexed |
| `PgmRightmost.RightmostMissed` | include/structures/PGM/PGM_index/pgm_index.hpp:104-110 | With the 64-bit sentinel S, every index over 0, S - 4, S - 3, S - 2 with epsilon 2 and any recursive epsilon is one level with an end segment; key S - 1 is answered by segment 0 although segment 1 is the rightmost one not beyond it |
| `PgmRightmost.AskPastGreatest` | include/structures/PGM/PGM_index/pgm_index.hpp:129-157 | Building that index and asking for that key does return segment 0 |
| `PgmRightmost.FourSegment` | include/structures/PGM/PGM_index/piecewise_linear_model.hpp:245-256 | Any fit of those points is stored as the segment with slope 3 / (S - 4) and intercept 0 |
| `PgmIndex.PGMIndex.Search` | include/structures/PGM/PGM_index/pgm_index.hpp:192-199 | For every query below the sentinel, also below the first key: 0 <= lo <= rank <= hi <= n, at most 2 eps + 2 apart; pos is the lesser of what the segment that answers for the key predicts and the next intercept, lo and hi are eps below and eps + 2 above it, cut at 0 and n |
| `PgmLookup.PGMWrapper.BulkLoad` | include/structures/PGM/PGMWrapper.hpp:31-39 | Keys and values are stored in order, and the index over them is ready unless the greatest key is the sentinel |
| `PgmLookup.NoPrefetchBatchLookup` | include/structures/PGM/algorithms/NoPrefetch.hpp:27-52 | Every query is found exactly when present in the array, with the value at its lower-bound rank; results of absent ones stay as they were |
| `BatchSearch.FindLower` | include/structures/PGM/algorithms/NoPrefetch.hpp:18-25 | On any window that holds the rank, the binary search returns it |
| `BatchSearch.CalcSteps` | include/structures/PGM/algorithms/SPP.hpp:22-30 | The least number of halvings whose power of two exceeds the range |
| `BatchSearch.HalveKeepsRank` | include/structures/PGM/algorithms/SPP.hpp:105-109 | One step of the fixed-step search keeps the rank in the range |
| `BatchSearch.RankDecides` | include/structures/PGM/algorithms/NoPrefetch.hpp:44-49 | A key is present exactly when it sits at its rank |
| `BatchSearch.BatchUnique` | include/structures/PGM/algorithms/NoPrefetch.hpp:27-52 | Two result vectors that answer the same batch are equal, so all schedulers return the same vectors |
| `PgmPipeline.SppBatchLookup` | include/structures/PGM/algorithms/SPP.hpp:32-147 | For every group size >= 1 and query list the rotating pipeline drains and returns the sequential answers |
| `PgmPipeline.Round` | include/structures/PGM/algorithms/SPP.hpp:72-145 | One round: the oldest stage is answered in query order, every live task gets one halving further, the blocks rotate and new queries enter; stage s always holds tasks with s halvings done |
| `PgmPipeline.Verify` | include/structures/PGM/algorithms/SPP.hpp:74-93 | Every task of the last stage looks active and sits at the rank; all are answered once and marked inactive |
| `PgmPipeline.StepBlock` | include/structures/PGM/algorithms/SPP.hpp:95-120 | Live ranges shrink to half and keep the rank, inactive slots stay inactive, other blocks are untouched |
| `PgmPipeline.Refill` | include/structures/PGM/algorithms/SPP.hpp:128-144 | The next queries enter in order with windows that look active; the rest of the block is inactive |
| `Pipeline.Rotate` | include/structures/PGM/algorithms/SPP.hpp:122-127 | The stage pointers turn by one, the freed block first |
| `Pipeline.RemainingShift` | include/structures/PGM/algorithms/SPP.hpp:72-145 | Shifting every block one stage on strictly lowers the count of stages still to be passed: the drain measure |
| `PgmAmac.AmacBatchLookup` | include/structures/PGM/algorithms/AMAC.hpp:43-169 | For every pool size >= 1 and any queries, also below the first key or past the sentinel, the pool drains and returns the sequential answers |
| `PgmAmac.Poll` | include/structures/PGM/algorithms/AMAC.hpp:77-165 | One poll keeps every machine right and every answered query answered once, and either lowers the global measure or finds nothing left to do |
| `PgmAmac.Sweep` | include/structures/PGM/algorithms/AMAC.hpp:75-166 | A sweep over the pool with queries outstanding strictly lowers the measure |
| `PgmAmac.Advance` | include/structures/PGM/algorithms/AMAC.hpp:86-143 | A step of a machine keeps its query, keeps a present key's rank in its window, and takes one of its remaining steps |
| `PgmAmac.LevelPosition` | include/structures/PGM/algorithms/AMAC.hpp:98-106 | At the bottom level the predicted position of a present key is within the unclamped window of its rank |
| `Pool.Moved` | include/structures/PGM/algorithms/AMAC.hpp:74-165 | A job that moves on keeps the pool right and lowers the measure |
| `Pool.Assigned` | include/structures/PGM/algorithms/AMAC.hpp:79-83 | The next query goes to one idle slot only: still handed out once, measure lower |
| `Pool.Completed` | include/structures/PGM/algorithms/AMAC.hpp:143-158 | Writing one query's answer touches no other and raises the done count by exactly one |
| `Pool.Drained` | include/structures/PGM/algorithms/AMAC.hpp:72-75 | When the done count reaches the number of queries it equals it, and every query has its right answer |
| `Pool.AllIdle` | include/structures/PGM/algorithms/AMAC.hpp:72-75 | If all queries are handed out and no slot is busy, all are done: the loop cannot spin idle |
| `PgmGroups.GroupBatchLookup` | include/structures/PGM/algorithms/GroupPrefetch.hpp:27-124 | For every group size >= 1 and any queries the phased loops return the sequential answers |
| `PgmGroups.BottomWindows` | include/structures/PGM/algorithms/GroupPrefetch.hpp:74-89 | Every lane gets a window, short enough for the fixed number of halvings, that holds the rank if its key is present |
| `PgmGroups.Steps` | include/structures/PGM/algorithms/GroupPrefetch.hpp:91-107 | After the fixed number of interleaved halvings every lane of a present key is down to its rank |
| `LippModel.PredictPos` | include/structures/LIPP/LIPP_index/lipp.h:52-61 | A prediction is always a slot of the node |
| `LippModel.SlotIs` | include/structures/LIPP/LIPP_index/lipp.h:52-61 | Inside the node the slot is the value rounded down; a negative value goes to the first slot, one at or beyond the last slot or half of INT_MAX to the last |
| `LippModel.PredictMonotone` | include/structures/LIPP/LIPP_index/lipp.h:52-61 | Through all three clamps, a nonnegative slope keeps predictions in key order |
| `LippModel.TwoKeySlots` | include/structures/LIPP/LIPP_index/lipp.h:414-438 | Any two different keys fall into slots 2 and 5 of the eight, so a two-key node never conflicts |
| `LippModel.TwoKeyValues` | include/structures/LIPP/LIPP_index/lipp.h:418-427 | The two-key line has values 2 and 5 at its keys, which determines it |
| `LippModel.NodeSlots` | include/structures/LIPP/LIPP_index/lipp.h:42-46 | Six slots a key, three from a hundred thousand keys on, two from a million on, and on both sides the whole part of the configured fraction |
| `LippModel.UnitSpans` | include/structures/LIPP/LIPP_index/lipp.h:613-614 | The unit less 1e-6 fits L - 2 times between the keys D places from both ends |
| `LippModel.FmcdCentred` | include/structures/LIPP/LIPP_index/lipp.h:628-635 | The slope is one slot per unit, and the keys D places from both ends lie evenly about the middle of the node |
| `LippModel.SplitPlaces` | include/structures/LIPP/LIPP_index/lipp.h:638-657 | The middle gaps lie a third and two thirds along, the middle keys halfway across them, the targets in the middle of their blocks of slots |
| `LippModel.FmcdSearch` | include/structures/LIPP/LIPP_index/lipp.h:608-628 | The search that never restarts its index returns the least accepted degree, or none up to a third of the keys: accepted is a degree whose windows all span Ut, or whose predecessor fails first at its last window but one; all windows of the degree but the last then span Ut |
| `LippModel.LastWindow` | include/structures/LIPP/LIPP_index/lipp.h:615-627 | All windows of an accepted degree span Ut if and only if its last one does; if that does not, the degree before failed first at its last window but one, so it was never looked at |
| `LippModel.LastWindowNarrow` | include/structures/LIPP/LIPP_index/lipp.h:615-627 | Keys 0, 1000, 2000, 3000, 3001, 3002 with 36 slots: degree 2 is accepted although keys[5] - keys[3] = 2 is far below Ut |
| `LippModel.FmcdSeparates` | include/structures/LIPP/LIPP_index/lipp.h:628-645 | On success the slope is positive and keys[0] and keys[D] fall into different slots |
| `LippModel.SplitMeetsTargets` | include/structures/LIPP/LIPP_index/lipp.h:646-670 | The three-way split has a positive slope and sends its two middle keys exactly to their targets |
| `LippModel.SidesDiffer` | include/structures/LIPP/LIPP_index/lipp.h:52-61 | Keys on the two sides of a point that is predicted at an integer slot boundary get different slots |
| `LippBuild.SplitSeparates` | include/structures/LIPP/LIPP_index/lipp.h:638-665 | The three-way split always separates the first key from the last |
| `LippGroups.SplitThirds` | include/structures/LIPP/LIPP_index/lipp.h:692-693 | For all keys, the three-way split gives every slot at most (size + 2) / 3 keys, as the disabled assertion says, if and only if no more than that many keys are predicted beyond half of INT_MAX; that is always so when its second target is not |
| `LippGroups.SplitThirdsMissed` | include/structures/LIPP/LIPP_index/lipp.h:692-693 | A billion keys with a gap of two billion after the first third break that bound |
| `LippGroups.FmcdGroups` | include/structures/LIPP/LIPP_index/lipp.h:628-645 | After a successful search of degree D, and for every t above D (t = D too where the last window is apart), at most t keys share a slot if and only if no more than t keys are predicted beyond half of INT_MAX |
| `LippGroups.FmcdThirds` | include/structures/LIPP/LIPP_index/lipp.h:692-693 | For all keys, after a successful search the disabled assertion holds if and only if no more than (size + 2) / 3 keys are predicted beyond half of INT_MAX |
| `LippGroups.FmcdThirdsMissed` | include/structures/LIPP/LIPP_index/lipp.h:608-645 | The keys 0 to 10^9 - 1: degree 1 is accepted, the builder takes its slope, and more than a third of the keys share the last slot |
| `LippGroups.Thirds` | include/structures/LIPP/LIPP_index/lipp.h:443-450 | The same equivalence for the model of either builder, whichever branch it took |
| `LippBuild.ChooseFmcd` | include/structures/LIPP/LIPP_index/lipp.h:602-670 | The model is the slope of the least accepted degree, or the three-way split if no degree is accepted; either way it separates the first key from the last over the node's slots |
| `LippBuild.ChooseSplit` | include/structures/LIPP/LIPP_index/lipp.h:453-530 | The builder without the search always takes the three-way split, which separates the first key from the last |
| `LippBuild.GroupPart` | include/structures/LIPP/LIPP_index/lipp.h:678-705 | The keys grouped at a slot are exactly the keys the model sends there |
| `LippBulk.GroupEnd` | include/structures/LIPP/LIPP_index/lipp.h:679-687 | The group at a slot is the maximal stretch of keys predicted to it |
| `LippBulk.Distribute` | include/structures/LIPP/LIPP_index/lipp.h:678-705 | Every slot ends up empty, with its one key, or with a new child waiting for exactly its keys; the segments pushed weigh strictly less than the one popped |
| `LippBulk.BuildNode` | include/structures/LIPP/LIPP_index/lipp.h:591-706 | The node gets the model the builder prescribes for exactly its keys, its slots, its build size, counters at zero and the fixed mark above a million keys, and is complete but for the children, which hang in it and wait on the stack |
| `LippTree.LIPP.BuildTreeTwo` | include/structures/LIPP/LIPP_index/lipp.h:386-441 | A two-key node with both pairs and their line, whatever the order given; taken from the top of the free list, which stays blank otherwise, or new |
| `LippTree.LIPP.BuildTreeNone` | include/structures/LIPP/LIPP_index/lipp.h:366-384 | A valid empty node: one free slot, counters at zero |
| `LippTree.LIPP.BuildSegment` | include/structures/LIPP/LIPP_index/lipp.h:579-707 | One popped segment becomes a complete node, with the model its builder prescribes for exactly its keys: slope 1 / Ut of the least accepted degree or the line through the two middle gaps (the two-key line for two); slot count, build size and fixed mark follow; its children are fresh, hang in it, and their segments weigh less |
| `LippTree.LIPP.BuildRound` | include/structures/LIPP/LIPP_index/lipp.h:578-708 | The stack keeps standing for exactly the nodes not built yet, and its weight strictly decreases |
| `LippTree.LIPP.BuildTreeBulk` | include/structures/LIPP/LIPP_index/lipp.h:563-710 | From any strictly increasing array of length >= 2 both builders end, with a valid tree whose map is exactly the array; every node has the model, slot count, build size and counters its builder prescribes for exactly its keys |
| `LippTree.LIPP.BuildPending` | include/structures/LIPP/LIPP_index/lipp.h:578-708 | The stack loop ends with every node complete and built as prescribed, and hanging in another one but for the root, whatever was recycled on the way |
| `LippScan.ScanNode` | include/structures/LIPP/LIPP_index/lipp.h:764-780 | A scan writes the node's own data to the positions of their ranks and sets the children aside with disjoint ranges that tile the rest; it ends at begin + size |
| `LippScan.WrittenIsMap` | include/structures/LIPP/LIPP_index/lipp.h:756-800 | Every position written exactly once means: keys strictly ascending and paired with their values |
| `LippTree.LIPP.Recycle` | include/structures/LIPP/LIPP_index/lipp.h:782-797 | A two-key node goes blank on top of the free list, any other is dropped |
| `LippTree.LIPP.ScanAndDestroyTree` | include/structures/LIPP/LIPP_index/lipp.h:756-800 | All keys of the subtree are written once, at their ranks, whatever the stack order; exactly the subtree leaves the tree, its two-key nodes and no others join the free list, the rest is unchanged |
| `LippTree.LIPP.Flatten` | include/structures/LIPP/LIPP_index/lipp.h:847-855 | The arrays are the sorted listing of the subtree's map |
| `LippTree.LIPP.DestroyTree` | include/structures/LIPP/LIPP_index/lipp.h:725-754 | Exactly the subtree leaves, its two-key nodes join the free list, and no other node changes |
| `LippNode.SlotDecides` | include/structures/LIPP/LIPP_index/lipp.h:136-148 | What a slot says about a key is what the node's map says: empty means absent, data decides by equality, a child passes the question on unchanged |
| `LippScan.SumIsBelow` | include/structures/LIPP/LIPP_index/lipp.h:245-253 | The running sum over the first i slots counts the keys predicted below slot i |
| `LippScan.VerifyHolds` | include/structures/LIPP/LIPP_index/lipp.h:239-256 | The final assertion of verify holds at every node of a valid tree |
| `LippTree.LIPP.constructor` | include/structures/LIPP/LIPP_index/lipp.h:82-102 | A new index is valid and empty, with the given number of blank two-key nodes in its free list |
| `LippTree.LIPP.Preallocate` | include/structures/LIPP/LIPP_index/lipp.h:85-92 | Building that many two-key nodes and destroying them leaves exactly them in the free list, all blank |
| `LippTree.LIPP.Exists` | include/structures/LIPP/LIPP_index/lipp.h:136-148 | True exactly for the keys of the map; the walk ends |
| `LippTree.LIPP.At` | include/structures/LIPP/LIPP_index/lipp.h:115-135 | The value the map has for a present key, checked or unchecked |
| `LippTree.LIPP.Walk` | include/structures/LIPP/LIPP_index/lipp.h:807-832 | The nodes passed are the walk of a lookup of the key beforehand; each counts the key and the insert once, no other node changes; the walk ends at a slot without a child and leaves only that slot open |
| `LippTree.LIPP.Descend` | include/structures/LIPP/LIPP_index/lipp.h:807-832 | Afterwards the tree is sound and its map has the new pair; the path is the walk of a lookup beforehand, size and insert count rise by one on it and nowhere else, the flag is 1 if and only if the slot reached held data, and that slot now holds the key, alone or in a two-key node with the key it held |
| `LippTree.LIPP.PutKey` | include/structures/LIPP/LIPP_index/lipp.h:814-830 | An empty slot takes the pair, an occupied one a new child of two keys; every other slot stays, and the flag tells which |
| `LippTree.LIPP.CountConflicts` | include/structures/LIPP/LIPP_index/lipp.h:833-835 | The conflict flag is added to every node of the path; every other node and counter stays |
| `LippTree.LIPP.RebuildDue` | include/structures/LIPP/LIPP_index/lipp.h:836-876 | The first node of the path that meets the test is replaced, and no other is touched but for the slot it hung in; without one nothing changes; afterwards no node meets the test |
| `LippTree.LIPP.Rebuild` | include/structures/LIPP/LIPP_index/lipp.h:842-875 | Any subtree of the path leaves with all its nodes, a new node built as prescribed over its keys takes its place in root or slot, every other node stays as it was but for that slot, and the map is the same |
| `LippInsert.PathShrinks` | include/structures/LIPP/LIPP_index/lipp.h:807-832 | Node sizes along a path never exceed the root's |
| `LippTree.LIPP.Insert` | include/structures/LIPP/LIPP_index/lipp.h:802-879 | The map gets the fresh pair and nothing else. With the counters and the walk as they were before: a rebuild takes place if and only if some node of the walk becomes due (not fixed, size + 1 at least 64 and four times the build size, ten times the conflicts with this one at least the inserts with this one); the topmost such node is replaced by a fresh one built as prescribed over its keys and the new one; exactly its subtree leaves, all other nodes stay; those on the walk count the key, the insert and the conflict and keep their other slots, the rest do not change; afterwards no node is due |
| `LippInsert.CutIsSubtree` | include/structures/LIPP/LIPP_index/lipp.h:756-800 | What leaves is exactly the subtree: the walk of any lookup meets a removed node from the subtree's root on and not before |
| `LippTree.LIPP.BulkLoad` | include/structures/LIPP/LIPP_index/lipp.h:149-182 | The map is exactly the given pairs, and from two keys on every node is built as prescribed for its keys, one key or none take one slot; refused exactly when they are not strictly increasing (not distinct, for two) |
| `LippRuns.InsertAll` | include/structures/LIPP/LIPP_index/lipp.h:109-114 | Over every run of fresh inserts, rebuilds included, the tree stays valid and its map is the fold of the inserts |
| `LippRuns.InsertedKeys` | include/structures/LIPP/LIPP_index/lipp.h:109-114 | That fold has exactly the earlier keys and the inserted ones, and changes no earlier value |
| `LippRuns.InsertedValue` | include/structures/LIPP/LIPP_index/lipp.h:109-114 | Every inserted key keeps the value it came with through all later inserts |
| `LippRuns.LoadThree` | include/structures/LIPP/LIPP_index/lipp.h:608-635 | Keys 0, 1, 2 loaded with the search and no spare slots: degree 1 is accepted with slope 10^6, and the keys are data in slots 0, 9 and 17 of 18 |
| `LippLookup.NoPrefetchBatchLookup` | include/structures/LIPP/algorithms/NoPrefetch.hpp:27-60 | Every query is answered by the map; results of absent ones stay as they were |
| `LippLookup.VisitNode` | include/structures/LIPP/algorithms/NoPrefetch.hpp:43-56 | One node visit settles the query or goes to a child that settles it, one level deeper |
| `LippLookup.AmacBatchLookup` | include/structures/LIPP/algorithms/AMAC.hpp:38-110 | For every pool size >= 1 the pool drains, over paths of any depth, and returns the answers of the map |
| `LippLookup.Poll` | include/structures/LIPP/algorithms/AMAC.hpp:67-107 | One poll keeps answers right and lowers the global measure unless idle for good |
| `LippLookup.SppBatchLookup` | include/structures/LIPP/algorithms/SPP.hpp:28-92 | The same for the task window with immediate refill, of any depth >= 1 |
| `LippLookup.StepTask` | include/structures/LIPP/algorithms/SPP.hpp:60-89 | One task step keeps answers right and lowers the global measure unless idle for good |
| `RadixSpline.Bits` | include/structures/RS/RS_index/radix_spline.hpp:121-132 | The number of binary digits: the least power of two above x, one for zero |
| `RadixSpline.BitWidth` | include/structures/RS/RS_index/radix_spline.hpp:121-132 | The shift loop computes it |
| `RadixSpline.PrefixMonotone` | include/structures/RS/RS_index/radix_spline.hpp:134-168 | Prefixes are in key order, keys outside the range included |
| `RadixSpline.PrefixScales` | include/structures/RS/RS_index/radix_spline.hpp:134-168 | A prefix is the distance from the least key, clamped to the range, scaled from the digits of the range to those of the table and rounded down |
| `RadixSpline.PrefixUncapped` | include/structures/RS/RS_index/radix_spline.hpp:163-165 | The cap on the prefix never applies |
| `RadixSpline.BoundBetweenEntries` | include/structures/RS/RS_index/radix_spline.hpp:180-184 | The upper bound over all spline points lies between the two table entries of the key's prefix |
| `RadixSpline.NarrowedSame` | include/structures/RS/RS_index/radix_spline.hpp:213-223 | Any range around the upper bound finds the same upper bound |
| `RadixSpline.NarrowingIsExact` | include/structures/RS/RS_index/radix_spline.hpp:170-238 | Strictly between the first and last spline point, the search in the narrowed range equals the search over all points, and the segment has left.x <= key < right.x |
| `RadixSpline.RadixSpline.GetSearchBound` | include/structures/RS/RS_index/radix_spline.hpp:55-77 | For every key the window is a range of the array, at most 2 max_error + 2 wide; InWindow, InnerEstimate and OuterEstimate say which, PresentKeyCovered and AbsentKeyWindow what it holds |
| `RadixSpline.InWindow` | include/structures/RS/RS_index/radix_spline.hpp:55-77 | A position is in the window if and only if it is at most max_error below or max_error + 1 above the estimate |
| `RadixSplineBuilder.InnerEstimate` | include/structures/RS/RS_index/radix_spline.hpp:240-288 | Strictly between the end keys the estimate is the height of the segment around the key, rounded down: in whole numbers, its distance from the left position times the width of the segment is the rise times the key's distance, less than one width short |
| `RadixSplineBuilder.OuterEstimate` | include/structures/RS/RS_index/radix_spline.hpp:247-257 | At or before the first key the estimate is the first position, at or past the last key the last one |
| `RadixSplineBuilder.AbsentKeyWindow` | include/structures/RS/RS_index/radix_spline.hpp:55-77 | For every key that is absent, below, between or above the keys, the window begins at or before its rank and ends at or after it |
| `RadixSplineBuilder.Stride` | include/structures/RS/RS_index/builder.hpp:101-101 | The sampling stride is the greater of max_error and one |
| `RadixSplineBuilder.InterpolateInside` | include/structures/RS/RS_index/radix_spline.hpp:268-275 | Interpolation inside a segment stays between its ends and is exact at the left one |
| `RadixSplineBuilder.PresentKeyCovered` | include/structures/RS/RS_index/radix_spline.hpp:55-77 | For every nondecreasing key array and max_error, 0 included, the window of a present key covers an occurrence |
| `RadixSplineBuilder.Builder.Create` | include/structures/RS/RS_index/builder.hpp:23-40 | Refused exactly for an empty key range or too many radix bits |
| `RadixSplineBuilder.Builder.AddKey` | include/structures/RS/RS_index/builder.hpp:42-52 | A key is appended exactly when it is in order and in range; otherwise nothing changes |
| `RadixSplineBuilder.Builder.Finalize` | include/structures/RS/RS_index/builder.hpp:54-67 | The index is over exactly the keys added, with spline and table as the lookups need them |
| `RadixSplineBuilder.Builder.BuildSplinePoints` | include/structures/RS/RS_index/builder.hpp:79-116 | Spline points are keys at their positions, a stride apart, from the first key to the last |
| `RadixSplineBuilder.Builder.BuildRadixTable` | include/structures/RS/RS_index/builder.hpp:118-151 | Entry p counts the spline points with a smaller prefix, for every p up to the table's end |
| `RadixSplineBuilder.NoPrefetchBatchLookup` | include/structures/RS/algorithms/NoPrefetch.hpp:37-66 | Membership is exact; a found query gets the value of the first occurrence of its key inside the window, at the greater of the window's begin and the key's rank |
| `RadixSplineBuilder.FirstOccurrenceFound` | include/structures/RS/algorithms/NoPrefetch.hpp:37-66 | That is the answer of the lower-bound search over the whole array if and only if (where values differ) the key is absent, or the first one, or no sampled position more than max_error past its rank holds it |
| `RadixSplineBuilder.WindowReachesRank` | include/structures/RS/RS_index/radix_spline.hpp:55-77 | The window of a present key begins at or before its rank exactly under that condition on the keys and the stride |
| `RadixSplineBuilder.FewOccurrences` | include/structures/RS/RS_index/radix_spline.hpp:55-77 | A key with at most max_error + 1 occurrences always gets its first one |
| `RadixSplineBuilder.FirstOccurrenceMissed` | include/structures/RS/RS_index/radix_spline.hpp:55-77 | Keys 0, 5, 5, 5, 5, 5, 9 with max_error 1: the window of 5 is [4, 7), its rank 1 |
| `RadixSplineBuilder.DistinctLookup` | include/structures/RS/algorithms/NoPrefetch.hpp:37-66 | Over distinct keys that is the answer of the lower-bound search over the whole array |
| `RadixSplineBuilder.WindowSlot` | include/structures/RS/algorithms/NoPrefetch.hpp:50-55 | The slot searched for a present key is its first occurrence inside the window; for an absent key it is the rank, as over the whole array |
| `RadixSplineBuilder.FindLowerIn` | include/structures/RS/algorithms/NoPrefetch.hpp:20-35 | The lower bound inside any range of a sorted array |
| `GreedySpline.BuildPoints` | include/structures/RS/RS_index/rs_index.hpp:140-180 | The loop with the index step-back ends, for every nonempty sorted key array; its points run from the first key to the last; every key between two of them is within the error of the line through them, at each end the segment grew through, and for each segment but the last some key is not if it took one key more: |(keys[j] - keys[a]) (b - a) - (j - a) (keys[b] - keys[a])| <= error (keys[b] - keys[a]), in whole numbers |
| `GreedySpline.CanExtend` | include/structures/RS/RS_index/rs_index.hpp:158-167 | True exactly when every key since the segment's start satisfies that inequality for the longer segment |
| `GreedySpline.TestIsExact` | include/structures/RS/RS_index/rs_index.hpp:159-166 | The interpolation test signals exactly the keys that violate the inequality; equal end keys, where the quotient is not a number, included |
| `GreedySpline.GreedyUnique` | include/structures/RS/RS_index/rs_index.hpp:149-180 | Only one sequence of points has those properties |
| `GreedySpline.EvenKeys` | include/structures/RS/RS_index/rs_index.hpp:149-180 | Keys in arithmetic progression get exactly two points |
| `GreedySpline.OneStepFits` | include/structures/RS/RS_index/rs_index.hpp:156-176 | A one-key step always passes the check, so the step-back makes progress |
| `GreedySpline.EveryKeyWithin` | include/structures/RS/RS_index/rs_index.hpp:149-180 | For sorted keys every key lies between two consecutive points and satisfies the inequality there; where their keys differ the interpolated position errs by at most the error |
| `BTree.FindIsHolds` | include/structures/btree/algorithms/NoPrefetch.hpp:41-63 | The lower-bound descent finds a pair exactly when some leaf of the search tree holds it |
| `BTree.NextOnPath` | include/structures/btree/algorithms/NoPrefetch.hpp:43-50 | Each node of the path but the last is an inner node whose child at the lower bound is the next |
| `BTree.FindLower` | include/structures/btree/algorithms/NoPrefetch.hpp:16-26 | The lower-bound rank among the slots, zero for an empty node |
| `BTree.LinearLowerBound` | include/structures/btree/algorithms/SPP_Linear.hpp:31-37 | The linear scan returns the same rank |
| `BTree.FlippedCompare` | include/structures/btree/algorithms/Vectorized.hpp:63-74 | Signed comparison after flipping the sign bits is unsigned comparison, for all 64-bit words |
| `BTree.BlockLanes` | include/structures/btree/algorithms/Vectorized.hpp:69-78 | The first clear bit of the comparison mask is the first slot of the block not below the key |
| `BTree.SimdLowerBound` | include/structures/btree/algorithms/Vectorized.hpp:52-105 | Block scan plus scalar tail return the lower-bound rank for every sorted node and block width |
| `BTree.GetTreeHeight` | include/structures/btree/algorithms/SPP.hpp:20-30 | The leftmost descent measures the height of any uniform-depth tree |
| `BTree.AnswerAtLeaf` | include/structures/btree/algorithms/SPP.hpp:88-99 | Answering at the leaf of the path answers the query by what the tree holds |
| `BTree.NoPrefetchBatchLookup` | include/structures/btree/algorithms/NoPrefetch.hpp:28-65 | Every query is answered by what the tree holds; results of absent ones stay as they were |
| `BTreePipeline.SppBatchLookup` | include/structures/btree/algorithms/SPP.hpp:45-152 | For every group size >= 1 and uniform-depth search tree the rotating pipeline drains and returns those answers |
| `BTreePipeline.Round` | include/structures/btree/algorithms/SPP.hpp:81-150 | A live task in stage s >= 1 sits at depth s - 1 of its path, and a round keeps it so while queries leave and enter in order |
| `BTreePipeline.ProcessLeaves` | include/structures/btree/algorithms/SPP.hpp:83-103 | The last stage holds leaves; all are answered once, in order, and the slots freed |
| `BTreePipeline.StepBlock` | include/structures/btree/algorithms/SPP.hpp:105-124 | Every live task moves to the next node of its path; other blocks are untouched |
| `BTreePipeline.Refill` | include/structures/btree/algorithms/SPP.hpp:135-149 | The next queries enter at the root in order, the rest of the block is idle |
| `BTreeShift.SppLinearBatchLookup` | include/structures/btree/algorithms/SPP_Linear.hpp:39-136 | The shifting pipeline drains and returns the same answers |
| `BTreeShift.ShiftRow` | include/structures/btree/algorithms/SPP_Linear.hpp:96-120 | A row is copied one level further down and left idle; all other rows are untouched |
| `BTreeShift.ProcessLeaves` | include/structures/btree/algorithms/SPP_Linear.hpp:72-93 | The last row holds leaves; all are answered once and left idle |
| `BTreeShift.Refill` | include/structures/btree/algorithms/SPP_Linear.hpp:122-133 | The next queries enter row 0 at the root in order |
| `BTreeGroups.GroupBatchLookup` | include/structures/btree/algorithms/GroupPrefetch.hpp:31-134 | For every group size >= 1 the interleaved search returns the same answers |
| `BTreeGroups.HalveLane` | include/structures/btree/algorithms/GroupPrefetch.hpp:77-82 | One halving keeps the rank and halves the width |
| `BTreeGroups.Rounds` | include/structures/btree/algorithms/GroupPrefetch.hpp:74-84 | Each round over the group uses up one halving of every lane; a negative count does nothing |
| `BTreeGroups.LastStep` | include/structures/btree/algorithms/GroupPrefetch.hpp:86-100 | The last halving fused with the descent takes every lane to the next node of its path |
| `BTreeGroups.VectorizedBatchLookup` | include/structures/btree/algorithms/Vectorized.hpp:108-170 | The vectorized loop returns the same answers, over 64-bit words by blocks of any width and over other keys by binary search |
| `BTreeGroups.NodeLowerBound` | include/structures/btree/algorithms/Vectorized.hpp:51-106 | Either way the slot is the lower-bound rank |

## Left out

- Floating point: slopes, models and interpolation are exact, so rounding of float, double
  and long double is not modelled, nor are the branches for floating-point keys.
- Fixed widths: integers are unbounded. The uint32 limit of a PGM intercept is not modelled;
  the check for a negative intercept is shown never to fire. Sizes must leave room for
  epsilon below the largest size_t.
- `make_segmentation_par` and OpenMP: only the sequential path.
- PGM queries at or above the sentinel for the lookups that call `search`, and an empty
  index for the one-at-a-time loop, which calls `search` without checking.
- PGM predictions of the pool and group lookups for keys below the first one: the unsigned
  subtraction wraps, so the position is arbitrary; the lookups answer right for any.
- The exact slot of a PGM pool machine on inner levels: only its prefetch depends on it.
- LIPP: the path-length limit of 128 (any depth is allowed), inserting a key already present,
  `at` on an absent key, printing and statistics.
- LIPP bitmaps and items are one slot value each, and a node's item array is a sequence
  field. The number of slots must fit an int for every size reached. The two bulk builders
  share their loop and differ in the choice of the model.
- LippTree.LIPP.BulkLoad: returns false before anything is changed where the source stops
  the program on unordered keys.
- LIPP pools and task windows are sequences passed from step to step instead of local
  arrays, because their machines refer to tree nodes; aliasing is not an issue there.
- Radix prefixes: shifts lose no digits, as when the radix width is at most the key width.
- `RSWrapper` and its sorting of the input pairs.
- `search` and the radix table of `rs_index.hpp`, which do not use consecutive spline
  points.
- The stx B+ tree's insert, erase and bulk load are not part of this model: the uniform
  depth, the order and the slot limits of the tree are hypotheses. Trees that verify
  themselves (no data slots) are left out.
- `Vectorized_Linear`, whose result vector holds keys instead of values.
- The remaining strategies for RadixSpline, LIPP and linear B+ tree search, which repeat the
  schedules proved here.
- The early return for a pipeline of no stages, which cannot be reached.
- Prefetching, padding, timing, allocators and printing.
