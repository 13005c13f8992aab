# Bouncing ball, sequence helpers and graph layout — a Dafny model

This project models the three parts of the `art` sketches that have rules you can state:

- **The bouncing-ball physics** (`art/BouncingBall.js`, module `BouncingBall`):
  - a closed-form ballistic step under gravity;
  - wall-crossing times from a linear solve, and floor/ceiling crossing times from a quadratic solve;
  - the filter that keeps crossings in `(0, dt]`, and the choice of the earliest one by a stable sort;
  - the damped bounce responses, including the snap of a tiny vertical speed to exactly 0;
  - the recursive sub-step on the time left after a bounce;
  - the two samplers, `simulateUntilTime` and `generateStates`.
- **The Python/NumPy-style helpers** (`art/util.js`, module `Util`): `ord`, the generator `range`, `linspace`, `zip` and `clamp`.
- **The node graph** (`art/GraphLayout.js`, module `GraphLayout`):
  - `makeGraph`, which issues consecutive ids to two groups of stacks;
  - the module-level loops that give every node its id, its children list and its parents back-links;
  - `graphLayout`, which writes positions and indices in place;
  - `getAffects`.

Numbers are exact reals and integers are unbounded. Code that loops or mutates is modelled imperatively:
- `range` and `linspace` are methods with loops;
- the samplers are methods;
- the graph is a class `GraphLayout.Graph` whose `nodes` map and `nextNodeId` counter the methods update.

Each method is proved against a specification function. The functions and their lemmas carry the properties.

Two modelling choices recur throughout:
- **Graph references.** The graph stores node references as keys. A JavaScript node object that is referenced from a `children` or `parents` array is modelled as its key in the `nodes` map.
- **Axes.** The y axis points down, as in the canvas.
  - The edge at `y = ballR` is called `Top`, and the edge at `y = height - ballR` is called `Bottom`.
  - The source's `floorY` argument is whichever of the two is being solved for.

The root solver in `solveQuadratic` returns one root only: the larger one, `(-b + sqrt(D)) / 2a`. The lower root is never tried; the model follows `solveQuadratic` and keeps only the larger root. Lemma `BouncingBall.TopCrossingMissed` shows what this costs on one concrete ball: one moving up from y = 70 at vy = -450 in a 200 by 200 box crosses the top edge at 0.1 s, inside the step of 0.13 s, is not stopped there, and ends the step at y = 36.85, beyond the limit of 40.

## Model

| member | source | states |
|---|---|---|
| `Util.Ord` | art/util.js:12-14 | true exactly when a, b, c are strictly increasing, strictly decreasing, or all equal |
| `Util.CeilBounds` | art/util.js:27-32 | the ceiling used for the number of values `range` yields lies in `[q, q + 1)` |
| `Util.RangeLength` | art/util.js:22-25 | a non-empty range needs `start != end` and a non-zero step |
| `Util.LoopTestCounts` | art/util.js:27-32 | the do-while test `ord(start, start + i*step, end)` holds exactly for `i` below the range's length, so the loop stops at the first value at or past `end` |
| `Util.Range` | art/util.js:17-33 | the generated sequence has the length set by the filled-in arguments: empty when `start == end`, and empty when the step's sign differs from the sign of `end - start`. Its k-th value is `start + k*step` |
| `Util.Yield` | art/util.js:26-32 | the do-while loop yields exactly `RangeLength` values, the k-th being `start + k*step`, the first being `start` |
| `Util.RangeExclusiveEnd` | art/util.js:12-32 | every value yielded lies in `[start, end)` for a positive step and in `(end, start]` for a negative one; the first value not yielded is at or past `end` |
| `Util.SingleArgumentRange` | art/util.js:18-25 | `range(n)` with `n > 0` counts from 0 by 1 and yields `ceil(n)` values; `range(0)` yields nothing |
| `Util.TwoArgumentRange` | art/util.js:20-21 | `range(start, end)` steps by +1 or -1 toward `end`; for an integral distance it yields `abs(end - start)` values |
| `Util.RangeArgs` | art/util.js:17-24 | fills in the optional arguments: `range(n)` counts from 0 by `sign(n)`, `range(start, end)` steps by `sign(end - start)` or 1; the partner lemmas `SingleArgumentRange` and `TwoArgumentRange` state the resulting counts |
| `Util.IntegerRangeLength` | art/util.js:18-25 | `range(num)` for an integer `num` yields `abs(num)` values, stepping by `sign(num)` |
| `Util.NumRangeLength` | art/util.js:18-25 | `range(num)` for any real `num` yields `ceil(abs(num))` values stepping by `sign(num)`; for a whole `num` that is `abs(num)` values |
| `Util.Linspace` | art/util.js:37-42 | with defaults `num = 50` and `endpoint = true`: one value per index of `range(num)`, so `ceil(abs(num))` values even for a fractional `num`; value k is `start + k*sign(num)*step`; the first is `start`; for a whole `num`, with `endpoint` and `num >= 2` the last is exactly `stop`, and without `endpoint` the last is one step short of `stop` |
| `Util.LinspaceDefaults` | art/util.js:37-42 | `linspace(start, stop)` yields 50 values, `start` first and `stop` last, spaced `(stop - start) / 49` |
| `Util.LinspaceLast` | art/util.js:38-41 | the step `(stop - start) / (num - endpoint)` lands on `stop` after `num - 1` steps with the endpoint, and after `num` steps without it |
| `Util.LinspaceEnds` | art/util.js:37-42 | value 0 is `start`; for a whole `num`, value `num - 1` is `stop` with the endpoint and one step short of it without |
| `Util.ZipRow` | art/util.js:45-47 | one reduce step appends, for each extra array, its i-th entry (None past its end) |
| `Util.Zip` | art/util.js:45-47 | has the length of `arr`; row i is `[arr[i], arrs[0][i], ...]` |
| `Util.UnzipZip` | art/util.js:45-47 | for equally long arrays, column 0 of the zip is `arr` and column `j + 1` is `arrs[j]` |
| `Util.Clamp` | art/util.js:50 | the result is x, bot or top; it lies in `[bot, top]` when `bot <= top`; it is x when x is already inside; it is bot when x is below bot, and top when x is above top but not below bot |
| `Util.ClampIdempotentMonotone` | art/util.js:50 | clamping twice equals clamping once, and clamping preserves order |
| `BouncingBall.ReducePrecision` | art/BouncingBall.js:27-29 | `toFixed` then parse on exact reals; its partner lemmas state the half-unit error bound, that integers pass through, and when a value snaps to 0 |
| `BouncingBall.RoundToError` | art/BouncingBall.js:27-29 | rounding to a grid of `1/p` moves a value by at most half a grid unit |
| `BouncingBall.ReducePrecisionError` | art/BouncingBall.js:27-29 | `reducePrecision(x, d)` differs from x by at most `0.5 * 10^-d` |
| `BouncingBall.ReducePrecisionInteger` | art/BouncingBall.js:27-29 | an integer is unchanged by `reducePrecision` |
| `BouncingBall.ReducePrecisionZero` | art/BouncingBall.js:27-29 | `reducePrecision(x, 3)` is 0 exactly when `abs(x) < 0.0005` |
| `BouncingBall.SimulateWithoutCollisions` | art/BouncingBall.js:47-54 | keeps vx, and a flight of 0 seconds is the identity; `FreeFlightComposes` and `FreeFlightEnergy` state composition and energy conservation |
| `BouncingBall.FreeFlightComposes` | art/BouncingBall.js:47-54 | a free flight of 0 is the identity, and a flight of a then b equals one flight of `a + b` |
| `BouncingBall.FreeFlightEnergy` | art/BouncingBall.js:47-54 | free flight keeps vx and conserves energy: `vy'^2 - vy^2 == 2*g*(y' - y)` |
| `BouncingBall.GetIntersectionTimeX` | art/BouncingBall.js:31-34 | no crossing exactly when vx is 0; otherwise the ball at the returned time is within `0.5e-10` of the wall |
| `BouncingBall.LandsNearWall` | art/BouncingBall.js:31-34 | the rounded distance divided by vx puts the ball within half a rounding unit of the wall |
| `BouncingBall.WallTimeExact` | art/BouncingBall.js:31-34 | for a whole-number distance to the wall, `x + vx*t` equals the wall exactly |
| `BouncingBall.SolveQuadratic` | art/BouncingBall.js:41-45 | returns null exactly when the discriminant is negative |
| `BouncingBall.CompleteSquare` | art/BouncingBall.js:41-45 | `4a*(a t^2 + b t + c)` equals `(2at + b)^2` minus the discriminant |
| `BouncingBall.SolveQuadraticRoots` | art/BouncingBall.js:39-45 | null exactly when the equation has no real root; otherwise the result is a root, and for `a > 0` it is the largest root |
| `BouncingBall.GetIntersectionTimeY` | art/BouncingBall.js:35-38 | no crossing exactly when `vy^2 < 2*g*(y - floorY)`, the discriminant of the vertical motion being negative |
| `BouncingBall.VerticalCrossing` | art/BouncingBall.js:35-38 | no crossing exactly when the free-flight path never reaches the line; otherwise the ball is on the line at the returned time, and that is the latest time it is there |
| `BouncingBall.Candidates` | art/BouncingBall.js:83-87 | four candidates, in the order left wall, right wall, top, bottom |
| `BouncingBall.WithinStep` | art/BouncingBall.js:88 | the filter keeps at most the candidates it is given; `WithinStepSound` and `WithinStepComplete` state that it keeps exactly those in `(0, dt]` |
| `BouncingBall.WithinStepSound` | art/BouncingBall.js:88 | every crossing kept is one of the candidates and lies in `(0, dt]` |
| `BouncingBall.WithinStepComplete` | art/BouncingBall.js:88 | every candidate in `(0, dt]` is kept |
| `BouncingBall.WithinStepOrdered` | art/BouncingBall.js:88 | the filter keeps the candidates' edge order |
| `BouncingBall.FirstEarliest` | art/BouncingBall.js:88-90 | picks the first of the crossings with the least time |
| `BouncingBall.InsertByTimeAdds` | art/BouncingBall.js:88 | one step of the stable sort adds exactly the inserted crossing |
| `BouncingBall.InsertByTimeSorted` | art/BouncingBall.js:88 | inserting into a time-sorted list keeps it sorted and puts the new crossing first only when it is no later than the old head |
| `BouncingBall.SortByTime` | art/BouncingBall.js:88 | the stable sort by time keeps the length; `SortByTimePermutes` and `SortByTimeSorted` state that it permutes and orders |
| `BouncingBall.SortByTimePermutes` | art/BouncingBall.js:88 | the sort is a permutation |
| `BouncingBall.SortByTimeSorted` | art/BouncingBall.js:88-90 | the sort orders by time, and its head is the first crossing with the least time (the sort is stable) |
| `BouncingBall.FirstEarliestBeats` | art/BouncingBall.js:88-90 | in edge order, the chosen crossing is earlier than every other, or ties and comes earlier in the list |
| `BouncingBall.FirstHit` | art/BouncingBall.js:88-90 | `intersects[0]` after the filter and sort; `FirstHitIsEarliest` states that it is the earliest candidate in `(0, dt]`, ties to edge order |
| `BouncingBall.FirstHitIsEarliest` | art/BouncingBall.js:83-90 | no collision exactly when no candidate lies in `(0, dt]`; otherwise the chosen crossing is a candidate in `(0, dt]` that beats every other such candidate on time, with ties going to left, right, top, bottom |
| `BouncingBall.HandleWallCollision` | art/BouncingBall.js:56-60 | position and vy are those of free flight to the hit; vx is `-0.8` times its value, so the speed shrinks |
| `BouncingBall.HandleFloorCeilingCollision` | art/BouncingBall.js:61-68 | position and vx are those of free flight to the hit; vy is `-0.8` times the vy at the hit, and is exactly 0 when that rounds to 0 at 3 decimals; the vertical speed never grows |
| `BouncingBall.HandleCollision` | art/BouncingBall.js:83-91 | `intersect.handleCollision(data, intersect.t)`: the wall response for the left and right edges, the floor/ceiling response for the top and bottom ones; `HandleCollisionResponse` states the result |
| `BouncingBall.HandleCollisionResponse` | art/BouncingBall.js:56-91 | whatever edge is hit, the ball is at its free-flight position at the hit; a wall hit keeps vy and sets vx to `-0.8` times the vx at the hit; a top or bottom hit keeps vx and never grows the vertical speed |
| `BouncingBall.Simulate` | art/BouncingBall.js:71-99 | `simulate` with at most `fuel` collisions resolved; its partner lemmas `SimulateZero`, `SimulateWithoutHit`, `SimulateAfterHit` and `SimulateFuelMonotone` state its three branches and that the fuel bound only cuts runs short |
| `BouncingBall.SimulateZero` | art/BouncingBall.js:72-74 | simulating for 0 seconds returns the ball unchanged |
| `BouncingBall.SimulateWithoutHit` | art/BouncingBall.js:89-98 | with no candidate in `(0, dt]`, simulate is plain free flight |
| `BouncingBall.SimulateAfterHit` | art/BouncingBall.js:89-94 | after the earliest hit, simulate continues from the bounced state for the remaining `dt - t`, which is non-negative and smaller than `dt` |
| `BouncingBall.SimulateFuelMonotone` | art/BouncingBall.js:71-99 | a result reached within some number of collisions is unchanged by allowing more |
| `BouncingBall.TopCrossingMissed` | art/BouncingBall.js:39-45 | for one concrete ball, at (100, 70) moving up at vy = -450 in a 200 by 200 box: the top edge's quadratic has roots 0.1 and 0.2; only the larger, 0.2, is tried, and it lies beyond the step of 0.13; so the ball passes the top edge unstopped and ends the step at y = 36.85, above the limit of 40 |
| `BouncingBall.Iterate` | art/BouncingBall.js:102-113 | n successive `data = simulate(data, timeStep)` steps; `IterateComposes` states that steps compose |
| `BouncingBall.IterateComposes` | art/BouncingBall.js:102-113 | a steps then b steps equal `a + b` steps |
| `BouncingBall.IterateFuelMonotone` | art/BouncingBall.js:102-113 | a stepped result is unchanged by allowing more collisions |
| `BouncingBall.JsRemainder` | art/BouncingBall.js:106 | JavaScript's `%`, truncating toward zero; `JsRemainderRange` states its range and that it is what is left after the whole steps |
| `BouncingBall.JsRemainderRange` | art/BouncingBall.js:106 | for non-negative T, `T % timeStep` lies in `[0, timeStep)` and is what is left after the whole steps |
| `BouncingBall.SimulateUntilTime` | art/BouncingBall.js:102-107 | the result is `ceil(T / timeStep)` whole steps followed by one step of `T % timeStep` |
| `BouncingBall.UntilTimeZero` | art/BouncingBall.js:102-107 | `simulateUntilTime(data, 0)` returns `data` |
| `BouncingBall.UntilTimeOvershoots` | art/BouncingBall.js:102-107 | the time simulated is T when T is a whole number of steps, and `T + timeStep` otherwise |
| `BouncingBall.UntilTimeExample` | art/BouncingBall.js:102-107 | for `T = 0.2` it simulates 2 steps plus 0.07, that is 0.33 s |
| `BouncingBall.SimulateUntilTimeFloor` | art/BouncingBall.js:102-107 | corrected sampler: `floor(T / timeStep)` whole steps followed by one step of `T % timeStep` |
| `BouncingBall.UntilTimeFloorExact` | art/BouncingBall.js:102-107 | the corrected sampler simulates exactly T, and its last step is shorter than one time step |
| `BouncingBall.GenerateStates` | art/BouncingBall.js:108-115 | returns `1 + ceil(simulationPeriod / timeStep)` states; state k is the ball after k time steps, so state 0 is the ball itself |
| `BouncingBall.StatesCoverPeriod` | art/BouncingBall.js:108-115 | with the source's constants that is 27 steps, the fewest whose total time covers the 3.5 s period |
| `GraphLayout.NatToString` | art/GraphLayout.js:35-37 | the string a key takes as a `for...in` id, never empty; `ParseNatToString` and `NatToStringInjective` state that it reads back and that distinct keys differ |
| `GraphLayout.ParseNatToString` | art/GraphLayout.js:35-37 | the string id a node gets reads back as its key |
| `GraphLayout.NatToStringInjective` | art/GraphLayout.js:35-37 | distinct keys get distinct ids |
| `GraphLayout.AddStacksKeys` | art/GraphLayout.js:8-12 | adding a group's stacks adds exactly the new ids as bare stacks and leaves every other node as it was |
| `GraphLayout.AddStacksShape` | art/GraphLayout.js:8-12 | adding fresh stacks keeps the graph a forest of groups over stacks |
| `GraphLayout.GroupOverNewStacks` | art/GraphLayout.js:11-12 | a group added over its freshly made stacks keeps the graph a forest of groups over stacks |
| `GraphLayout.BuiltByTwoGroups` | art/GraphLayout.js:14-15 | a group of 3 stacks and then a group of 4 make group 0 over stacks 1-3 and group 4 over stacks 5-8 |
| `GraphLayout.Graph.constructor` | art/GraphLayout.js:6-7 | an empty graph with the counter at 0 |
| `GraphLayout.Graph.NewStack` | art/GraphLayout.js:8-10 | adds a bare stack under the next id and advances the counter by one |
| `GraphLayout.Graph.NewGroup` | art/GraphLayout.js:11-13 | takes the next id for the group, then adds `stackSize` stacks under the following ids, and adds the group with those stacks as its children in order, so a group's children are the `stackSize` consecutive ids after its own; the graph stays a forest of groups over stacks |
| `GraphLayout.MakeGraph` | art/GraphLayout.js:5-17 | nine nodes: group 0 over stacks 1-3 and group 4 over stacks 5-8, with the counter at 9 |
| `GraphLayout.Graph.SetUp` | art/GraphLayout.js:35-40 | every node gets its key's string as id, an empty parents list, and a children list (empty for a stack); kinds and children are unchanged |
| `GraphLayout.SetUpNode` | art/GraphLayout.js:36-39 | one pass of the setup loop; `SetUpKeepsShape` states that it keeps the kind and children, and `Graph.SetUp` states the id, parents and children it writes |
| `GraphLayout.SetUpBelowAt` | art/GraphLayout.js:35-40 | after the setup loop has passed key k, node k is set up and the later nodes are untouched |
| `GraphLayout.SetUpShape` | art/GraphLayout.js:35-40 | the setup loop changes no key, kind or children list |
| `GraphLayout.Graph.LinkChildren` | art/GraphLayout.js:42-44 | each child of the parent gets the parent appended to its parents list |
| `GraphLayout.Graph.LinkParents` | art/GraphLayout.js:41-45 | each node's parents list gains every node that lists it as a child, in key order, once per listing; nothing else changes |
| `GraphLayout.PushedParents` | art/GraphLayout.js:41-45 | the parents the back-linking loop pushes onto a node while visiting keys in ascending order; `PushedParentsIff` and `AtMostOneParent` state who they are and how many |
| `GraphLayout.PushedParentsIff` | art/GraphLayout.js:41-45 | P is among the parents pushed onto C exactly when P is a node that lists C as a child |
| `GraphLayout.BackLinksIff` | art/GraphLayout.js:41-45 | after back-linking, P is in C's parents exactly when C is in P's children |
| `GraphLayout.AtMostOneParent` | art/GraphLayout.js:41-45 | in a forest of groups over stacks every node gets at most one parent, and a group gets none |
| `GraphLayout.OnlyParent` | art/GraphLayout.js:41-45 | a stack listed by a group gets exactly that group as its parent |
| `GraphLayout.NoParent` | art/GraphLayout.js:41-45 | a node nobody lists gets no parent |
| `GraphLayout.BuiltParents` | art/GraphLayout.js:41-45 | in the built graph, stacks 1-3 get parent 0, stacks 5-8 get parent 4, and the groups get none |
| `GraphLayout.LoadedBuilt` | art/GraphLayout.js:35-45 | setup and back-linking of the built graph give every node its id and children, and the parents listed above |
| `GraphLayout.LoadModule` | art/GraphLayout.js:35-45 | the module's top level leaves nine nodes, each with its key's string as id, its kind, its children list and exactly the parents listed above |
| `GraphLayout.GroupsBelow` | art/GraphLayout.js:56 | the index `entries()` gives a group in the filtered, key-ordered node list; `GroupRanksAscend` states that later groups get larger indices |
| `GraphLayout.GroupRanksAscend` | art/GraphLayout.js:56 | filtering groups in key order numbers them so that a later group gets a larger index |
| `GraphLayout.Graph.PlaceGroup` | art/GraphLayout.js:57-68 | the group gets its position and group index, then its i-th child gets stack index i and a position below the group |
| `GraphLayout.Graph.Layout` | art/GraphLayout.js:55-70 | the graph becomes its layout, with the same keys and the same shape |
| `GraphLayout.LaidOutNode` | art/GraphLayout.js:55-70 | layout changes only a node's position, group index and stack index |
| `GraphLayout.LaidOut` | art/GraphLayout.js:55-70 | layout keeps the keys, kinds, children, ids and parents |
| `GraphLayout.InitialLayout` | art/GraphLayout.js:25-32 | with `initialData`, group k sits at `(40k, 0)` and its stack i at `(40k + 40, 80 + 60i)`: a stack column is one node diameter right of its group and neighbouring stacks are more than a diameter apart |
| `GraphLayout.LaidOutGroup` | art/GraphLayout.js:56-61 | the k-th group in key order is placed at `(rootX + k*shiftX_GroupGroup, rootY)` with group index k, and its stack index is left alone |
| `GraphLayout.LaidOutStack` | art/GraphLayout.js:62-68 | the i-th child of a group gets stack index i and position `(group.x + shiftX_StackGroup, group.y + shiftY_StackGroup + i*shiftY_StackStack)`, and its group index is left alone |
| `GraphLayout.LaidOutUntouched` | art/GraphLayout.js:55-70 | a node that is not a group and that no group lists is left unchanged |
| `GraphLayout.LayoutOverrides` | art/GraphLayout.js:55-70 | laying out again with new data gives what one layout with the new data gives |
| `GraphLayout.LayoutIdempotent` | art/GraphLayout.js:55-70 | laying out twice with the same data gives the same graph as once |
| `GraphLayout.GetAffects` | art/GraphLayout.js:47-53 | null exactly for a node that is neither a stack nor a group; otherwise it names layout parameters |
| `GraphLayout.AffectsAfterLayout` | art/GraphLayout.js:47-68 | after layout: group 0 affects `[rootX, rootY]` and the other groups `[shiftX_GroupGroup]`; stack 0 of a group affects `[shiftX_StackGroup, shiftY_StackGroup]` and the other stacks `[shiftX_StackGroup, shiftY_StackStack]` |

## Left out

- **Rendering, DOM and animation.** These are calls into the drawing host and the browser:
  - `strokeWidth`, `renderStates`, `render`, `renderAnimation`, `handleResize` and the animation and resize loop (art/BouncingBall.js:116-198);
  - `renderGraph` and the draggable points (art/GraphLayout.js:72-92).
- **The other sketches** draw only; their arithmetic lies outside this model:
  - art/WindingFourierTransform.js samples a cosine with `linspace`, and plots the samples as a waveform and wound around a circle in polar form, pairing them with `zip`;
  - art/SpaceDistortion.js moves points on concentric rings toward a focal point by a factor `k / (d^2 + 1)` of their distance d;
  - art/CounterRotatingHelix.js places two rings of points at angles and radii given by sine and cosine;
  - art/PointIdentityTest.js draws points along `range` after a `clamp`, which is covered here.
- **Box size.** The module-level `simulationBoxWd`/`simulationBoxHt`, which the resize handler reassigns, are the `width` and `height` of a `World` value passed to the physics.
- **Math.sqrt** is the `sqrt` field of `World`. The lemmas about it assume only that it returns a non-negative square root.
- **Floating point.**
  - Numbers are exact reals.
  - `reducePrecision` is `toFixed` on exact reals: round half away from zero, and values of magnitude `1e21` or more pass through. Binary representation error is not modelled.
  - JavaScript's NaN and Infinity are not modelled. A wall time with `vx == 0` is `None`, which the filter drops as the source's filter drops the infinite or NaN time.
- `BouncingBall.Simulate`: the source recurses with no bound. The model counts collisions with a `fuel` parameter and returns `None` when fuel runs out. Termination is not claimed, and neither is that the ball stays in the box.
- `BouncingBall.SimulateUntilTime`, `BouncingBall.GenerateStates`: the states are `Option` values because each call of `Simulate` has the fuel bound above.
- `BouncingBall.GetIntersectionTimeX`: the exact equation `x + vx*t == wallX` is proved only for a whole-number distance to the wall (`WallTimeExact`). In general the rounding to 10 decimals leaves the ball within `0.5e-10` of the wall.
- `BouncingBall.HandleWallCollision`, `BouncingBall.HandleFloorCeilingCollision`: the source scales a field of a fresh object in place. The model returns the updated value. The object is fresh, so no aliasing is lost.
- `Util.Linspace`: `linspace` with `endpoint` and `num == 1` divides by zero and yields NaN. That input is excluded by a precondition. Arguments that are not numbers are not modelled.
- `Util.Zip`: JavaScript reads past the end of a shorter array as `undefined`. The model's rows hold `Option` values, and `None` stands for `undefined`.
- `Util.Range`: only finite real arguments are modelled. Arguments that are not numbers, and the generator's laziness, are not modelled; the model returns the whole sequence.
- `GraphLayout.Graph.Layout`: it requires the graph to be a forest of groups over stacks. `makeGraph` always builds one, but the source does not check it.
- `GraphLayout.Graph.PlaceGroup`: it requires a group's children to be distinct, which the forest shape gives.
- `GraphLayout.Graph.LinkParents`: it requires every child key to be a node, as every JavaScript child reference is. The `nodes()` helper (art/GraphLayout.js:19) is read as iteration over the keys in ascending order, the order JavaScript uses for integer-like keys.
- `GraphLayout.BuiltParents`, `GraphLayout.LoadedBuilt`: they take the forest shape of the built graph as a premise. `MakeGraph` establishes that shape.

## Findings

| source | as written | input that shows it | evidently intended | confidence | as-written member | corrected member |
|---|---|---|---|---|---|---|
| art/BouncingBall.js:102-107 | `simulateUntilTime` takes `ceil(T / timeStep)` whole steps (the length of `range(T / timeStep)`) and then one more step of `T % timeStep`, so it simulates `T + timeStep` whenever T is not a whole number of steps | `T = 0.2`, `timeStep = 0.13`: 2 whole steps plus 0.07, that is 0.33 s instead of 0.2 s | `floor(T / timeStep)` whole steps plus `T % timeStep`, which adds up to exactly T | medium, not executed | `BouncingBall.UntilTimeOvershoots` | `BouncingBall.UntilTimeFloorExact` |
