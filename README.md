# Waste-collection patrol planner: a verified model of the route engine

This project models the route-planning engine of the patrol simulator. A
cleaning agent walks a 35 × 20 floor grid and visits the service points of
waste-bin clusters. The model covers both scripts: the multi-floor one
(`multifloor_reference.py`) and the single-floor one (`reference.py`).

- **`grid.dfy` (module `Grid`).** The obstacle grid is a `blocked: array2<bool>` indexed `[x, y]`.
  - `BlockRect`, `BlockHLine`, `BlockVLine` fill it in place and silently clip out-of-range cells.
  - `LineWall` and `RoomWall` are the obstacle halves of the drawing helpers.
  - `LineWallStrict` is the single-floor `line_wall`. It fails on a diagonal.
  - `ForcePassable` frees the service, start and end cells as the layout builders do. It fails, as numpy's IndexError, at the first point outside the index range.
- **`paths.dfy` (module `Paths`).** The path vocabulary and the contract both searches meet (`SearchResult`):
  - exactly `[start]` when start equals goal;
  - otherwise a shortest 4-connected path through passable cells;
  - `[]` exactly when no such path exists.
  
  It also holds the optimality argument shared by both searches (`PopIsOptimal`).
- **`astar.dfy` (module `AStarSearch`).** `astar`, as an imperative loop over an open list, the `came` and `gscore` maps and the `visited` set.
- **`dijkstra.dfy` (module `DijkstraSearch`).** `dijkstra`, with its `dist` and `prev` maps.
- **`routes.dfy` (module `Routes`).** Fill percentages and due points, `pct_color`, the greedy nearest-neighbour tour, the patrol tour sorted by `(zone rank, y, x)`, and the multi-floor `build_routes`.
- **`frames.dfy` (module `Frames`).** Frame expansion: `build_frames` (multi-floor) and `build_path` (single-floor), with the dwell rules of each.
- **`scenario.dfy` (module `Scenario`).** The first-floor instance: which clusters are due, and the two tours over them.

The searches are proved against `SearchResult`. Each frame builder is proved
against a function `FramesOf` of the per-leg search results.

The lemmas about `FramesOf` state:
- every frame is passable;
- when every leg is reachable, the frames form an unbroken walk that ends at the last waypoint;
- the frame count is the steps walked plus the pause frames;
- any two searches that meet the contract give the same count.

## Model

| member | source | states |
|---|---|---|
| Grid.BlockRect | public/map/multifloor_reference.py:41-45 | exactly the in-bounds cells of `[x, x+w) × [y, y+h)` become blocked; every other cell keeps its value |
| Grid.BlockHLine | public/map/multifloor_reference.py:47-51 | exactly the in-bounds cells of row y between x0 and x1 inclusive, in either order, become blocked; nothing else changes |
| Grid.BlockVLine | public/map/multifloor_reference.py:53-57 | exactly the in-bounds cells of column x between y0 and y1 inclusive, in either order, become blocked; nothing else changes |
| Grid.LineWall | public/map/multifloor_reference.py:61-62 | a horizontal or vertical wall blocks exactly its in-bounds cells; a diagonal one changes nothing |
| Grid.LineWallStrict | public/map/reference.py:72-76 | fails exactly when the wall is diagonal, and then blocks nothing; otherwise it blocks exactly as LineWall |
| Grid.RoomWall | public/map/multifloor_reference.py:64-68 | the room rectangle's in-bounds cells become blocked, nothing else |
| Grid.NpCell | public/map/multifloor_reference.py:142 | a numpy index in `[-n, n)` denotes an in-bounds cell, and an in-bounds index denotes itself |
| Grid.ForcePassable | public/map/multifloor_reference.py:141-144 | the points are cleared in order (services, start, end if set); it fails exactly when some point is outside numpy's index range, and the failure names the first such point; a cell ends up blocked iff it was blocked before and is not among the points cleared before the failure; on success every in-bounds service, start and end cell is passable; the single-floor copy (reference.py:130-137, end optional) is the same step |
| Grid.AdjacentIsStep | public/map/multifloor_reference.py:165-166 | each of the four offsets reaches an adjacent cell, and every adjacent cell is reached by one of them |
| Paths.SearchResultsAgree | public/map/reference.py:145-204 | two results that meet the search contract for the same pair have equal length |
| Paths.StepsBound | public/map/multifloor_reference.py:153 | `h(p)` is `Manhattan(p, goal)`, and along a unit-step walk it drops by at most one per step, so it never overestimates |
| Paths.PopIsOptimal | public/map/multifloor_reference.py:156-159 | once every unsettled offered cell has key at least `key`, no path reaches an unsettled cell c in fewer than `key - h(c)` steps |
| Paths.ClosedSetContainsPaths | public/map/multifloor_reference.py:165-173 | when every offered cell is settled and every settled cell is expanded, every path from the start ends at a settled cell |
| Paths.FoundIsShortest | public/map/multifloor_reference.py:160-163 | a path to the goal as long as its settled cost is a shortest path and meets the search contract |
| Paths.ReverseBackPath | public/map/multifloor_reference.py:161-163 | reversing the cells collected from goal back to start gives a start-to-goal path of the same length |
| AStarSearch.PopMin | public/map/multifloor_reference.py:157 | returns the index of an entry no greater than any other in `(f, g, x, y)` order |
| AStarSearch.PopSettled | public/map/multifloor_reference.py:158 | discarding a popped entry whose cell is settled keeps the loop invariant |
| AStarSearch.PopCostOptimal | public/map/multifloor_reference.py:156-159 | the g of the first pop of an unsettled cell is no more than the length of any path to it |
| AStarSearch.SettleKeepsChain | public/map/multifloor_reference.py:159 | recording the parent and cost of a newly settled cell keeps every parent chain one step shorter and every settled cost optimal |
| AStarSearch.RelaxPush | public/map/multifloor_reference.py:169-172 | recording a better cost `ng = g + 1` for a neighbour and pushing it keeps the neighbour-loop invariant |
| AStarSearch.RelaxSkip | public/map/multifloor_reference.py:167-170 | skipping an out-of-range, blocked or not-improved neighbour keeps the neighbour-loop invariant |
| AStarSearch.RelaxDone | public/map/multifloor_reference.py:165-172 | after the four directions every passable neighbour of the cell holds an offered cost at most g + 1 |
| AStarSearch.Exhausted | public/map/multifloor_reference.py:173 | an empty open list before reaching the goal means the goal is unreachable |
| AStarSearch.Reconstruct | public/map/multifloor_reference.py:160-163 | following `came` from the goal ends at the start (the loop terminates) and yields a passable start-to-goal path of settled-cost + 1 cells |
| AStarSearch.ExpandCell | public/map/multifloor_reference.py:164-172 | expanding a newly settled cell restores the outer-loop invariant |
| AStarSearch.AStar | public/map/multifloor_reference.py:151-173 | `[start]` when start equals goal; a non-empty result is a shortest passable 4-connected path from start to goal; `[]` exactly when the goal is unreachable; the single-floor copy (reference.py:145-168) is the same code |
| DijkstraSearch.PopMin | public/map/reference.py:180 | returns the index of an item no greater than any other in `(d, x, y)` order |
| DijkstraSearch.PopSettled | public/map/reference.py:181-182 | discarding a popped item whose cell is settled keeps the loop invariant |
| DijkstraSearch.PopCostOptimal | public/map/reference.py:180-183 | the first pop of an unsettled cell carries its recorded distance, and no path to it is shorter |
| DijkstraSearch.SettleKeepsLinks | public/map/reference.py:183 | settling a cell keeps every `prev` link pointing at a settled cell one step closer |
| DijkstraSearch.SettleOptimal | public/map/reference.py:180-183 | the newly settled cell is the start or an in-grid cell, its popped distance equals its recorded distance, it has a predecessor unless it is the start, and its distance is optimal |
| DijkstraSearch.SettledNotImproved | public/map/reference.py:199-200 | a settled neighbour already has a distance no greater than d + 1, so it is never updated again |
| DijkstraSearch.LinksAfterPush | public/map/reference.py:199-202 | an improved neighbour is never the start (start never gets a `prev` entry), and the new link keeps the predecessor invariant |
| DijkstraSearch.RelaxPush | public/map/reference.py:199-203 | recording `nd = d + 1`, the predecessor and a queue item keeps the neighbour-loop invariant |
| DijkstraSearch.RelaxSkip | public/map/reference.py:195-200 | skipping an out-of-range, blocked or not-improved neighbour keeps the neighbour-loop invariant |
| DijkstraSearch.RelaxDone | public/map/reference.py:192-203 | after the four directions every passable neighbour holds a distance at most d + 1 |
| DijkstraSearch.Exhausted | public/map/reference.py:204 | an empty queue before reaching the goal means the goal is unreachable |
| DijkstraSearch.Reconstruct | public/map/reference.py:184-191 | walking `prev` from the goal stops at the start (the loop terminates) and yields a passable start-to-goal path of distance + 1 cells |
| DijkstraSearch.ExpandCell | public/map/reference.py:192-203 | expanding a newly settled cell restores the outer-loop invariant |
| DijkstraSearch.Dijkstra | public/map/reference.py:170-204 | `[start]` when start equals goal; a non-empty result is a shortest passable 4-connected path; `[]` exactly when the goal is unreachable |
| Frames.ComparePathfinders | public/map/reference.py:145-204 | on the same pair, astar and dijkstra return paths of equal length, both shortest, and both empty exactly when the goal is unreachable |
| Routes.PctFill | public/map/reference.py:207 | its keys are exactly the cluster names; a name missing from the table maps to 0.0, any other to its table value |
| Routes.DuePoints | public/map/multifloor_reference.py:183 | a point is listed iff some cluster with that service point has pct ≥ threshold; no more entries than clusters |
| Routes.WithFill | public/map/multifloor_reference.py:276 | planting keeps every cluster's name, service point and zone, and sets its pct to the table's value, or 0.0 when the table lacks the name |
| Routes.DuePointsRef | public/map/reference.py:214 | a point is listed iff some cluster with that service point has PCT_FILL[name] ≥ THRESHOLD_PCT; no more entries than clusters |
| Routes.DuePointsAppend | public/map/multifloor_reference.py:183 | the due points keep cluster order: those of a concatenation are the concatenation of the due points |
| Routes.DuePointsRefAgree | public/map/reference.py:207-214 | reading fills through PCT_FILL gives the same DUE_POINTS as planting them into the cluster records and filtering at THRESHOLD_PCT |
| Routes.PctColor | public/map/reference.py:209-212 | "red" iff p ≥ THRESHOLD_PCT; "orange" iff 0.8·THRESHOLD_PCT ≤ p < THRESHOLD_PCT; "green" iff p < 0.8·THRESHOLD_PCT |
| Routes.RedIffDue | public/map/reference.py:209-214 | a red cluster's service point is due; when the clusters sharing that point share its fill, a due point is red |
| Routes.FirstNearest | public/map/multifloor_reference.py:189 | `min` with the key `abs(dx) + abs(dy)`, which is `Manhattan(cur, p)`: the index found is no farther than any point and strictly nearer than every earlier one (first minimum) |
| Routes.RemoveFirst | public/map/multifloor_reference.py:190 | `remove` leaves a list one element shorter (which element goes is stated by RemoveFirstCount and RemoveFirstAt) |
| Routes.RemoveFirstCount | public/map/multifloor_reference.py:190 | `remove` takes exactly one copy of the value out of the list |
| Routes.RemoveFirstAt | public/map/multifloor_reference.py:190 | removing the value whose first occurrence is at k deletes exactly position k |
| Routes.NearestRemoved | public/map/multifloor_reference.py:189-190 | removing the point `min` picked deletes exactly the position it was found at |
| Routes.NNOrder | public/map/multifloor_reference.py:186-190 | the greedy visiting order has one stop per remaining point (its content is stated by NNOrderPermutes and NNGreedy) |
| Routes.NNOrderPermutes | public/map/multifloor_reference.py:186-190 | the greedy tour visits each due point exactly as often as it is listed (a permutation) |
| Routes.NNGreedy | public/map/multifloor_reference.py:188-190 | the tour's first stop is the first nearest point and no point is nearer; the rest of the tour is the greedy tour from it over the remaining points |
| Routes.NearestRoute | public/map/reference.py:220-228 | the route is the start, the greedy tour over the due points, then END_POS if set; its length is 1 + number of due points + (1 if end) |
| Routes.NNRouteShape | public/map/multifloor_reference.py:185-191 | the nn route starts at start, then holds a permutation of the due points, and ends at the end point when one is given |
| Routes.ZoneRank | public/map/multifloor_reference.py:193 | `ZONE_RANK.get(z, 5)` is at most 5, and it is 5 exactly for "lain" and for a zone missing from the table |
| Routes.Services | public/map/multifloor_reference.py:178 | one service point per cluster, in cluster order |
| Routes.Sp2ZoneKeys | public/map/multifloor_reference.py:179 | the keys of `sp2zone` are exactly the clusters' service points |
| Routes.Sp2ZoneLastWins | public/map/multifloor_reference.py:179 | a service point maps to the zone of the last cluster serving it |
| Routes.PatrolKeyKnown | public/map/multifloor_reference.py:193 | every service point is a key of `sp2zone`, so the "lain" default never applies; its rank is that of the last cluster serving it |
| Routes.Insert | public/map/multifloor_reference.py:193 | the insertion step of the sort adds exactly one copy of the point |
| Routes.SortByKey | public/map/multifloor_reference.py:193 | the sort returns a permutation of its input |
| Routes.InsertSorted | public/map/multifloor_reference.py:193 | inserting into a list sorted by `(zone rank, y, x)` keeps it sorted |
| Routes.SortByKeySorted | public/map/multifloor_reference.py:193 | the sort's output is ordered by `(zone rank, y, x)` |
| Routes.SortedUnique | public/map/multifloor_reference.py:193 | any two sorted permutations of the same points are equal, so stability cannot change the order |
| Routes.PatrolRoute | public/map/reference.py:230-235 | start, then each cluster's service point once (a point shared by several clusters appears once per cluster), sorted by `(ZONE_RANK.get(zone, 5), y, x)`, and the end as the last element when one is set; length 1 + clusters + (1 if end) |
| Routes.PatrolIgnoresFill | public/map/multifloor_reference.py:192-195 | the patrol route does not depend on fill percentages or names, only on service points and zones |
| Routes.Sp2ZoneSamePlaces | public/map/multifloor_reference.py:179 | `sp2zone` depends only on the clusters' service points and zones |
| Routes.BuildRoutes | public/map/multifloor_reference.py:176-196 | due points at the given threshold; the nn tour plus the end for mode "nn"; the patrol route for any other mode |
| Frames.DwellFrames | public/map/multifloor_reference.py:207-209 | `max(1, int(sec*FPS))`: at least one frame and at least sec·FPS frames, and equal to one of the two |
| Frames.Dwell | public/map/multifloor_reference.py:206-209 | every pause is 0, 8 or 32 frames. Multi-floor: 32 iff the point is due; 0 iff it is not due and the mode is not "patrol". Single-floor (reference.py:258-265): 0 at END_POS; 32 iff not END_POS, due, and mode "nn" or "patrol"; 8 iff not END_POS, not due, and mode "patrol" |
| Frames.DueSet | public/map/multifloor_reference.py:201 | a point is in the due set iff some cluster with that service point has pct ≥ THRESHOLD_PCT |
| Frames.FramesOf | public/map/multifloor_reference.py:202-209 | when every leg's path has at most one cell, every leg is skipped and there are no frames |
| Frames.DwellConstants | public/map/multifloor_reference.py:207-209 | the service pause is 32 frames, the quick check 8, and every pause is at least one frame |
| Frames.DueSetIsDuePoints | public/map/multifloor_reference.py:201 | the due set of `build_frames` holds exactly the due points at the global THRESHOLD_PCT |
| Frames.BuildFrames | public/map/multifloor_reference.py:198-210 | `[]` for fewer than 2 waypoints; otherwise each leg is a search result, and the frames are its path less its first cell, then 32 frames if the point is due, else 8 in mode "patrol"; legs of ≤ 1 cell add nothing |
| Frames.Pathfind | public/map/reference.py:252-254 | "astar" selects A*, any other name Dijkstra; either way the leg meets the search contract |
| Frames.BuildPath | public/map/reference.py:241-266 | as BuildFrames, with the single-floor dwell rule: none at END_POS; in "nn" 32 frames at due points only; in "patrol" 32 or 8 at every other arrival |
| Frames.NoPauseAtEnd | public/map/reference.py:258 | a leg arriving at END_POS contributes its path cells and no pause |
| Frames.FrameCount | public/map/multifloor_reference.py:202-209 | the number of frames is the steps walked over the played legs plus their pause frames |
| Frames.FramesPassable | public/map/multifloor_reference.py:203-209 | every frame is an in-bounds unblocked cell |
| Frames.FramesContinuous | public/map/multifloor_reference.py:202-209 | when every leg is reachable, the start followed by the frames moves one step or stays put at each tick, and ends at the last waypoint |
| Frames.SameFrameCount | public/map/reference.py:252-265 | any two pathfinders meeting the search contract (A* and Dijkstra) yield the same steps, pauses and frame count on the same route |
| Scenario.Floor1Due | public/map/multifloor_reference.py:253-259 | with fills 83, 55, 92, 48, 88, the due points are (3,6), (2,16) and (32,16), in cluster order |
| Scenario.Floor1Nearest | public/map/multifloor_reference.py:185-190 | from (1,19) the greedy tour visits (2,16), then (3,6), then (32,16) |
| Scenario.Floor1Sp2Zone | public/map/multifloor_reference.py:101-107 | the first-floor `sp2zone` maps each service point to its cluster's zone |
| Scenario.Floor1Patrol | public/map/multifloor_reference.py:193 | the first-floor patrol order is (2,16), (17,18), (32,16), (22,4), (3,6) |

## Left out

- Rendering and I/O are not modelled. This covers `draw_grid`, the plotting half of `line_wall` and `room_wall`, `draw_static`, `animate`, GIF writing, `os.makedirs`, `plt.show` and `print`.
- The bin colour tables, the bin lists of the clusters and `sp2name` are not modelled. They never influence a route; `sp2name` is only returned.
- Script-level execution is not modelled. This covers the concrete wall and room call sequences of the layout builders and the runs per floor. The first-floor clusters and fill table appear only as the instance in `scenario.dfy`.
- Module-level globals of the single-floor script become parameters. These are the global `blocked` array, `DUE_POINTS`, `service_points`, `sp2zone` and `END_POS`.
- The `blocked` argument of the multi-floor `build_routes` is never read, so `BuildRoutes` does not take it.
- heapq is modelled as a sequence with a `PopMin` that returns a least element under the full tuple order. The proofs use only the primary key, so they hold for any tie-break. A* pushes a cell again only with a strictly smaller g, so `(f, g, cell)` never ties and the `parent` slot is never compared.
- Fill percentages are reals, not floats; they are only compared. THRESHOLD_PCT = 0.80 × 100.0 is exactly 80.0 both as a real and as a double.
- Dwell counts are integer products (4 × 8 and 1 × 8). The `int()` truncation has nothing to cut.
- Frames.BuildFrames: the ghost out-parameter `segs` names the path of each leg. The contract does not say which of several shortest paths the search picks.
- Frames.BuildPath: the same as Frames.BuildFrames for the legs' paths.
- Frames.FramesContinuous: states continuity only when every leg is reachable. An unreachable leg adds no frames, so the walk jumps.
- Routes.NNGreedy: states the greedy choice one step at a time. The whole tour follows by unfolding `NNOrder`, which is that step repeated.

## Behaviour worth noting

The model follows the code in each of these points:
- **Skipped legs.** A leg whose path has at most one cell (the agent is already there, or the goal is unreachable) is skipped by `continue`. Its pause is dropped along with it: the agent does not pause at that waypoint.
- **Dwell count.** A pause lasts `max(1, int(sec * FPS))` frames, a truncation. With the integer constants nothing is cut: 32 and 8 frames.
- **Nearest-due mode.** The multi-floor `build_frames` pauses at the end point in nn mode only when it is due. The single-floor `build_path` never pauses at END_POS, whatever the mode.
- **Threshold in `build_frames`.** It uses the global THRESHOLD_PCT, not the threshold passed to `build_routes`. Every run in the script passes THRESHOLD_PCT, so the two match there. `BuildFrames` has no threshold parameter.
- **Out-of-range cells.** The `block_*` functions clip cells outside the grid and never raise. The unblocking of service, start and end cells does not clip: an index outside numpy's range raises IndexError after the earlier points are cleared (`ForcePassable` returns `Fail`), and a negative index inside the range clears a cell counted from the far edge.
