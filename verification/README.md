# Verification of the XPilot-AI planners, bees and map converter

A Dafny model of the algorithms of this repository that have a precise specification, with proofs that
the code's loops meet it. Each module follows one source file or one algorithm of it; loops over arrays,
lists and grids are methods proved against specification functions, and what the code is for is proved
about those functions.

* **Map graph and path planning** (`graph.c`, `astar.c`, `dijkstra.c`, `bfs.c`, `dfs.c`): `Distance`, `MapGraph`,
  `Walks`, `ZeroArrays`, `StatusTable`, `SearchTree`, `Dijkstra`, `DijkstraEnds`, `DijkstraStops`, `AStar`,
  `AStarEnds`, `AStarExample`, `Bfs`, `Dfs`. The graph invariant over all runs of operations, total correctness of the
  four searches, when they end at all, and the exact price that A* pays for truncated distances.
* **Avoiding danger** (`chaser.c`, `cAI_referenceonly.c`): `LineProbe`, `LinePromise`, `LineBounds`, `SafeMap`. For which
  segments the sampled circle test is right, and how wrong it can be otherwise; the avoid list as a map of bounded size
  and the safe map as a filter.
* **Wall probe and shot sorting** (`cAI_referenceonly.c`): `WallProbe`, `QuickSort`.
* **Bee dances** (`beeDance.c`, `beeObserve.c`): `BeeDance`, `BeeObserve`, `DanceProtocol`. The encoder, the observing
  automaton, the decoder, and the round trip through all three.
* **Map conversion** (`mapconvert.py`): `TileMap`, `Partition`, `Tracing`, `EdgeOrbits`, `FindEdges`, `FlatEdges`,
  `Outlines`, `FindMin`, `Minwrap`, `SpanningTree`, `PolyLink`, `EulerTour`, `TourLaws`, `ClosedLine`, `WallExtent`,
  `Winding`, `MakePolys`, `PartKinds`, `WallLines`, `WrapEuclid`.
  Parts of the wall are its connected components on the torus; the traced polygons draw each edge of the wall exactly
  once; the direction of a polygon is the number of its full turns; the skipping nearest-pair search equals the
  exhaustive one; the links form a minimum spanning tree; the merged line has every side and every link once each way,
  and no jump on the torus. Taken together, a half-edge is an entry of the converted map exactly when it has wall on its
  left and none on its right, and then it is so once, at its place, in the line of its part (`WallLines.WallDrawnOnce`).

`Seqs` and `Arithmetic` hold facts about sequences and integers that several modules use.

## How to read it

Vertices are looked up by binary search in tables that `chaser.c:203` sorts by id, so the searches require a map
sorted by id (`Searchable`); ids are positive because 0 ends a path. `Reachable`, `Walk` and `Cost` are defined on the
undirected edges of the map. A half-edge is a corner and one of the eight directions; `Boundary` says that wall lies on
its left and none on its right, `Next` is the half-edge that the tracing loop turns into, and an `Orbit` is one trip
around. `Draws` ties a polygon to the half-edges it draws. Which corners of a tile are solid is said once, by `SolidIn`
for the characters of the map; `Tracing.NoEdgeIsSolid` and `Outlines.LinkedIsSolid` tie both tables of the source to it.
In `PolyLink`, `EulerTour` and `TourLaws` polygons are
numbered by the place in which they were linked, and link k leads to the polygon in place k + 1.

`findmin` uses floating-point square roots. The model takes the square root as a function and asks only that it be
within a quarter of the true root on the distances that occur; the pair found is then the exact minimum. Distances are
the squares of integers and stay exact.

## Where the code and its documentation disagree

* `astar.c:74` promises the shortest path. The heuristic is truncated, so it is neither admissible nor consistent, and
  closed vertices are not reopened; `AStarExample.NotAlwaysShortest` gives a map where the answer is longer, and
  `AStar.AStarBound` bounds how much longer it can be. One cheapest walk without overestimates is enough for a shortest
  path (`AStar.OptimalWithoutSlack`), and on a consistent map every walk is such a walk (`AStar.OptimalWhenConsistent`).
  A search on an inconsistent map may still be answered with a shortest path (`AStarExample.InconsistentYetShortest`).
* `dijkstra.c:205` promises to report an end without a path. The scan before it also stops at vertices at INT_MAX, done
  or not, so the report is made only for an end that is the first such vertex and has no edges; otherwise the loop runs
  for ever or adds to INT_MAX (`DijkstraEnds.EndsExactly`, `DijkstraEnds.SearchesForEver`).
* `astar.c` makes the start the predecessor of every vertex at first (line 129). Where no vertex that cannot be reached
  has an edge, up to the end in the order of the map, an end that cannot be reached is answered with success and the two
  ids of start and end, which are no walk (`AStar.AnswerIsWalk`, `AStarEnds.NoWalkAnswered`); for any other such end the
  search adds to INT_MAX (`AStarEnds.SafeExactly`).
* `cAI_referenceonly.c:2744` promises to tell whether a segment meets a circle. The code samples about eleven points and
  truncates their ordinates, so it errs both ways: `LineBounds.SamplesCanMiss` shows an intersection that it misses and
  `LineBounds.FalseAlarm` one that it makes up. `LinePromise.PromiseKept` says for exactly which segments the promise
  holds; `LineBounds.HitIsNear` and `LineBounds.NearIsHit` bound the error for all others.
* `cAI_referenceonly.c:1659` says that wallBetween returns 1 for a wall. It returns the distance, which is 1
  exactly when the very first pixel is a wall (`WallProbe.DocumentedAnswer`, `WallProbe.WallAtThree`), and its callers
  at lines 1644 and 1652 compare with -1, which never comes back.
* `graph.c:196` means to refuse an absent vertex but tests the function's address, so remove_vertex goes on and drops
  the last vertex (`MapGraph.AbsentNotRefused`). `MapGraph.AbsentCanCorrupt` shows an edge left without its end, and
  `MapGraph.RemovedVertexKeeps` gives the exact condition under which that does not happen.

## Model

| member | source | states |
|---|---|---|
| Distance.TruncatedTriangle | xpilot_ai/c/graph.c:38-41 | truncating Euclidean distances to int costs the triangle inequality at most one unit |
| Distance.DistancePositive | xpilot_ai/c/graph.c:38-41 | distinct points are at truncated distance at least 1 |
| Distance.DistanceIs | xpilot_ai/c/graph.c:38-41 | the truncated distance r of two points is the number with r * r <= dx * dx + dy * dy < (r + 1) * (r + 1) |
| MapGraph.VertexInGraph | xpilot_ai/c/graph.c:44-57 | the scan answers whether some vertex has the id |
| MapGraph.AddVertex | xpilot_ai/c/graph.c:77-99 | the vertex goes behind all others when its id and its place are both unused, and nothing changes otherwise; its id is present afterwards if and only if it was before or the place was free |
| MapGraph.AddEdge | xpilot_ai/c/graph.c:104-143 | the two ids are joined afterwards if and only if they were before, or are both present and distinct; a new edge comes last, joins the records handed in, and weighs their distance without its fraction; everything else stays |
| MapGraph.AddedVertexIs | xpilot_ai/c/graph.c:77-99 | what add_vertex adds and when, in terms of the vertices alone |
| MapGraph.AddedEdgeIs | xpilot_ai/c/graph.c:104-143 | what add_edge adds and when, in terms of the vertices and the edges alone |
| MapGraph.RemoveEdge | xpilot_ai/c/graph.c:147-187 | the shifting loop takes out the last edge that joins the two ends and keeps the order of the others |
| MapGraph.RemoveIncident | xpilot_ai/c/graph.c:202-209 | in any graph whose edges join distinct vertices of it, pairs repeated or not, the loop that steps its index back after each removal ends, and leaves exactly the edges that do not touch the vertex, in order |
| MapGraph.ShiftOut | xpilot_ai/c/graph.c:211-225 | the compaction loop drops the first vertex with the id, or the last vertex when the id is absent, and keeps the order of the others, for any array of vertices |
| MapGraph.RemoveVertex | xpilot_ai/c/graph.c:191-227 | the whole of remove_vertex, whose guard tests the function name instead of calling it |
| MapGraph.WeightsPositive | xpilot_ai/c/graph.c:139-140 | in a graph that keeps the invariant every weight is at least 1 |
| MapGraph.AddedVertexKeeps | xpilot_ai/c/graph.c:77-99 | adding a vertex keeps unique ids, unique places and the shape of the edges |
| MapGraph.AddedEdgeKeeps | xpilot_ai/c/graph.c:104-143 | adding an edge keeps the shape, and keeps edges faithful to the vertex array if and only if the records handed in are the array's own or nothing is added |
| MapGraph.RemovedEdgeExactly | xpilot_ai/c/graph.c:147-187 | in a valid graph remove_edge removes exactly the edges between the two ids |
| MapGraph.RemovedEdgeLeaves | xpilot_ai/c/graph.c:147-187 | the edges that are left are those with other ends, taken in either direction |
| MapGraph.RemovedEdgeKeeps | xpilot_ai/c/graph.c:147-187 | removing an edge keeps the invariant and leaves the two ids unjoined |
| MapGraph.AddThenRemoveEdge | xpilot_ai/c/graph.c:104-187 | remove_edge undoes add_edge |
| MapGraph.RemovedVertexKeeps | xpilot_ai/c/graph.c:191-227 | remove_vertex keeps the graph valid if and only if the vertex is present or the last vertex has no edge |
| MapGraph.AbsentNotRefused | xpilot_ai/c/graph.c:196-200 | the refusal of an absent vertex never happens: the graph always loses a vertex, for an absent one the last |
| MapGraph.AbsentCanCorrupt | xpilot_ai/c/graph.c:196-227 | on two joined vertices the removal of an absent id leaves an edge whose end is gone |
| MapGraph.RemovedVertexExactly | xpilot_ai/c/graph.c:191-227 | a present vertex goes with exactly its incident edges, and the remaining vertices keep their order |
| MapGraph.RunKeepsInvariant | xpilot_ai/c/graph.c:77-227 | after any run of the four operations, in which an absent vertex is removed only where the vertex it evicts has no edge, ids and places are unique, edges join distinct present vertices, no pair twice, and all weights are true distances of at least 1 |
| ZeroArrays.Length | xpilot_ai/c/graph.c:248-258 | counts the entries before the first zero |
| ZeroArrays.FoundInArray | xpilot_ai/c/graph.c:60-73 | searches exactly the entries before the first zero |
| StatusTable.RelaxAllEffect | xpilot_ai/c/dijkstra.c:133-158 | relaxing every edge at a vertex lowers each neighbour to the cheaper of its weight and the way over that vertex, hangs it there, and changes nothing else |
| SearchTree.BinarySearch | xpilot_ai/c/dijkstra.c:33-69 | the midpoint loop finds the id in a sorted table, or answers -1 when it is not there |
| SearchTree.BackTraceWalk | xpilot_ai/c/dijkstra.c:215-224 | the predecessors of a reached entry spell a walk from the root that costs no more than the entry's weight |
| SearchTree.BackTraceSimple | xpilot_ai/c/dijkstra.c:215-224 | the walk back visits no vertex twice |
| SearchTree.Retrace | xpilot_ai/c/dijkstra.c:200-239 | the two copying loops write any chain of predecessors forward into path and end it with a zero |
| SearchTree.BackTraceChain | xpilot_ai/c/dijkstra.c:215-224 | the predecessors of a reached entry are the chain that spells its walk from the root |
| Dijkstra.RelaxEdges | xpilot_ai/c/dijkstra.c:133-158 | the edge loop in place computes the relaxed table |
| Dijkstra.SelectNext | xpilot_ai/c/dijkstra.c:172-193 | the scan and the minimum loop compute the entry to go on with, from which PickReached and PickLost say what it is |
| Dijkstra.SettleKeeps | xpilot_ai/c/dijkstra.c:128-198 | one round keeps the search invariant and settles one more vertex |
| Dijkstra.Frontier | xpilot_ai/c/dijkstra.c:128-198 | a walk from a settled to an open vertex has a first open vertex whose weight is already at most the walk's cost up to it |
| Dijkstra.NearestIsOptimal | xpilot_ai/c/dijkstra.c:184-196 | the vertex chosen next carries a weight no larger than the cost of any walk to it |
| Dijkstra.Round | xpilot_ai/c/dijkstra.c:128-198 | a round settles the end at its least cost, or goes on with a nearest reached vertex as long as there is one, and only looks at reachable vertices |
| Dijkstra.AllReached | xpilot_ai/c/dijkstra.c:128-198 | when nothing reached is open any more, the vertices below INT_MAX are exactly those that can be reached |
| Dijkstra.Turn | xpilot_ai/c/dijkstra.c:128-198 | each turn of the loop finds the end, with its least cost or still marked as unreached, or can go on |
| Dijkstra.SearchLoop | xpilot_ai/c/dijkstra.c:128-198 | the loop ends with the end settled at the least cost of all walks, or with its first mark if there is no walk |
| Dijkstra.Dijkstra | xpilot_ai/c/dijkstra.c:73-242 | success exactly when both ends are present and there is a walk, and then path holds a simple walk of minimum weight and a zero; otherwise failure and the empty path; for every input on which the loop ends without overflow |
| DijkstraEnds.EndsExactly | xpilot_ai/c/dijkstra.c:128-206 | the loop ends without adding to INT_MAX if and only if the end can be reached, or is the first vertex in the table that cannot and has no edges; so the failure promised for an end without a path is reported only then |
| DijkstraEnds.SearchesForEver | xpilot_ai/c/dijkstra.c:172-175 | on three vertices without edges the search from the first for the third never ends |
| DijkstraStops.TourIsWalk | xpilot_ai/c/dijkstra.c:246-278 | a tour made of legs is one walk from the first to the last stop |
| DijkstraStops.BestTourSnoc | xpilot_ai/c/dijkstra.c:255-266 | extending a cheapest tour by a cheapest leg gives a cheapest tour |
| DijkstraStops.DijkstraN | xpilot_ai/c/dijkstra.c:246-278 | path holds a cheapest walk through all the stops in order |
| AStar.SlackAtMostOne | xpilot_ai/c/astar.c:116 | along an edge the truncated heuristic falls by at most the weight and one |
| AStar.HeuristicAlong | xpilot_ai/c/astar.c:116 | along a walk heuristic plus cost plus slack never falls |
| AStar.ExpandVertex | xpilot_ai/c/astar.c:141-170 | the edge loop in place and the closing of the vertex compute the expanded table |
| AStar.SelectOpen | xpilot_ai/c/astar.c:178-202 | the scan and the minimum loop pick the first open entry of least f, or the table length when all are closed |
| AStar.SearchLoopA | xpilot_ai/c/astar.c:136-203 | the search loop ends and computes the functional run |
| AStar.ExpandKeeps | xpilot_ai/c/astar.c:136-170 | an expansion keeps the invariant that walks from closed vertices are paid for up to their slack, although closed vertices are never reopened, and closes just that entry |
| AStar.PopBound | xpilot_ai/c/astar.c:192-202 | the cost at which a vertex is closed is at most the cost of any walk to it plus that walk's slack |
| AStar.RunBound | xpilot_ai/c/astar.c:136-203 | for every run with the end reachable, the final cost of the end is within the slack of every walk |
| AStar.Result | xpilot_ai/c/astar.c:205-228 | what is handed back is a walk from start to end |
| AStar.ResultBound | xpilot_ai/c/astar.c:77-231 | the result is simple and costs at most any walk plus the walk's slack |
| AStar.AStarBound | xpilot_ai/c/astar.c:77-231 | on a map with true weights the result costs at most what any walk costs plus one for each of its edges after the first |
| AStar.OptimalWithoutSlack | xpilot_ai/c/astar.c:77-231 | one cheapest walk along which the heuristic never overestimates is enough for the result to be a cheapest walk |
| AStar.OptimalWhenConsistent | xpilot_ai/c/astar.c:77-231 | where truncation leaves the heuristic consistent the result is a cheapest walk |
| AStar.Astar | xpilot_ai/c/astar.c:77-231 | astar ends, reports failure exactly for a missing end or start, and stores its answer with a closing zero: the result of the search, or the two ids of start and end if there is no walk between them |
| AStar.LostRun | xpilot_ai/c/astar.c:129 | in the search for an end that cannot be reached the end keeps the start as its predecessor |
| AStar.AnswerIsWalk | xpilot_ai/c/astar.c:77-231 | what astar answers is a walk from start to end if and only if the end can be reached |
| AStarEnds.SafeExactly | xpilot_ai/c/astar.c:136-203 | the search forms no sum with INT_MAX if and only if the end can be reached, or no vertex that cannot be reached has an edge, up to the end in the order of the map |
| AStarEnds.NoWalkAnswered | xpilot_ai/c/astar.c:129-231 | on two vertices without an edge the table at the end of the search spells both ids, which are no walk |
| AStarExample.NotAlwaysShortest | xpilot_ai/c/astar.c:74-76 | a four-vertex map with true weights on which astar answers a path of cost 6 although one of cost 5 exists |
| AStarExample.InconsistentYetShortest | xpilot_ai/c/astar.c:74-76 | on the same map, inconsistent as it is, another start is answered with a cheapest walk |
| Bfs.DepthOrdered | xpilot_ai/c/bfs.c:107-150 | the list is ordered by distance from the start |
| Bfs.NoShorterWalk | xpilot_ai/c/bfs.c:102-105 | when a vertex comes up, no walk to it has fewer edges than its predecessor chain |
| Bfs.ExhaustedIsReachable | xpilot_ai/c/bfs.c:94-99 | when the list is exhausted it holds exactly what the start reaches |
| Bfs.FoundInList | xpilot_ai/c/bfs.c:20-35 | the list walk answers whether the id is on the list |
| Bfs.SearchList | xpilot_ai/c/bfs.c:85-151 | the loop ends with null exactly when the end is unreachable, and otherwise at the cell of the end with a shortest chain |
| Bfs.Unwind | xpilot_ai/c/bfs.c:155-168 | the two copying loops write the chain forward and end it with a zero |
| Bfs.BreadthFirst | xpilot_ai/c/bfs.c:39-178 | path is a simple walk with the fewest edges if and only if there is a walk, else empty |
| Dfs.DfsHelper | xpilot_ai/c/dfs.c:21-52 | answers -1 exactly when all neighbours are visited, else the far end of an edge to an unvisited vertex |
| Dfs.PushKeeps | xpilot_ai/c/dfs.c:118-130 | going down an edge keeps the chain a simple path and every visited vertex off the chain exhausted |
| Dfs.PopKeeps | xpilot_ai/c/dfs.c:142-144 | stepping back keeps the same two facts |
| Dfs.AllVisited | xpilot_ai/c/dfs.c:136-141 | when the start has no fresh neighbour everything reachable has been visited |
| Dfs.FullyVisited | xpilot_ai/c/dfs.c:110 | as many visited ids as vertices means that every vertex is visited |
| Dfs.SearchChain | xpilot_ai/c/dfs.c:98-152 | the loop ends, and has found the end if and only if it is reachable, with a simple chain to it |
| Dfs.CopyChain | xpilot_ai/c/dfs.c:154-163 | the last loop copies the chain and ends it with a zero |
| Dfs.DepthFirst | xpilot_ai/c/dfs.c:56-167 | path is a simple walk if and only if there is a walk, else empty |
| QuickSort.Partition | xpilot_ai/c/cAI_referenceonly.c:400-406 | the hole moves until the pivot stands between smaller and larger entries, a permutation of the range |
| QuickSort.PartitionKeeps | xpilot_ai/c/cAI_referenceonly.c:399-408 | partitioning the top range leaves everything already placed in its final order |
| QuickSort.PushedPending | xpilot_ai/c/cAI_referenceonly.c:406 | pushing the two sides makes twice the pending entries plus the depth smaller |
| QuickSort.QuickSortShots | xpilot_ai/c/cAI_referenceonly.c:393-409 | the entries before the sentinel end as a permutation with ascending alerts, and with at most 1000 of them the answer is always 1 |
| WallProbe.OffsetStep | xpilot_ai/c/cAI_referenceonly.c:1676-1681 | the accumulator stays between 0 and the major length and overflows just when the rounded offset grows |
| WallProbe.WithinHalfPixel | xpilot_ai/c/cAI_referenceonly.c:1668-1682 | the i-th pixel is i units from the start along the longer side, and its cross product with the segment is at most half the longer side: it lies within half a pixel of the segment |
| WallProbe.PixelRounds | xpilot_ai/c/cAI_referenceonly.c:1668-1682 | along the longer side the i-th pixel is exactly i away in the right direction; along the shorter side it is rounded to the nearest integer, halves away from the start |
| WallProbe.LastPixel | xpilot_ai/c/cAI_referenceonly.c:1674-1685 | the last pixel is exactly the far end |
| WallProbe.PixelsTouch | xpilot_ai/c/cAI_referenceonly.c:1674-1698 | consecutive pixels differ and touch |
| WallProbe.ReportedBetween | xpilot_ai/c/cAI_referenceonly.c:1684 | the distance reported for the i-th pixel lies between i and the root of 2 times i, and is 1 for the first |
| WallProbe.WallBetween | xpilot_ai/c/cAI_referenceonly.c:1660-1703 | 0 exactly when no pixel of the line is a wall; any other answer r is the length of the way to the first wall pixel p without its fraction: r * r <= (p.0 - x1)^2 + (p.1 - y1)^2 < (r + 1) * (r + 1) |
| WallProbe.AnswerMeans | xpilot_ai/c/cAI_referenceonly.c:1654-1703 | the answer is unique; it is 0 exactly for a clear line, and 1 exactly when the first pixel is a wall |
| WallProbe.DocumentedAnswer | xpilot_ai/c/cAI_referenceonly.c:1659 | the documented answer, 1 for a wall and 0 for none, is given if and only if the line is clear or its first pixel is a wall |
| WallProbe.WallAtThree | xpilot_ai/c/cAI_referenceonly.c:1659 | a wall at (3, 0) only, seen from (0, 0), is answered with 3 |
| WallProbe.WallFeeler | xpilot_ai/c/cAI_referenceonly.c:1649-1653 | the feeler hands on what wallBetween answers, 0 for a clear line, since -1 never comes back |
| LineProbe.SwapPoints | xpilot_ai/c/cAI_referenceonly.c:2731-2742 | swapping by sums and differences exchanges the points |
| LineProbe.LineInCircle | xpilot_ai/c/cAI_referenceonly.c:2746-2811 | true if and only if for some k the sample at x1 + k * max(1, (x2 - x1) / 10), with its ordinate cut toward 0, or the one at y1 + k * max(1, (y2 - y1) / 10) on an upright segment, lies in the circle |
| LineProbe.HitsSymmetric | xpilot_ai/c/cAI_referenceonly.c:2746-2811 | the order of the segment's ends does not matter |
| LineProbe.SampleBetween | xpilot_ai/c/cAI_referenceonly.c:2772 | a sample lies between the segment's ends |
| LinePromise.ShortStepsExact | xpilot_ai/c/cAI_referenceonly.c:2763-2782 | where consecutive samples are lattice points a short step apart, some sample is in the circle if and only if some point of the segment is |
| LinePromise.WrongBetween | xpilot_ai/c/cAI_referenceonly.c:2763-2782 | between lattice samples that are farther apart there is a circle that meets the segment and contains no sample |
| LinePromise.PromiseKept | xpilot_ai/c/cAI_referenceonly.c:2744-2811 | the answer is right for every circle if and only if the segment is upright and shorter than 20, or level, diagonal or of slope 2 and less than 20 wide, or of slope one half and at least 20 but less than 30 wide |
| LinePromise.AnySampling | xpilot_ai/c/cAI_referenceonly.c:2769-2780 | for sloped segments, whatever integers the rounding makes of the ordinates of the samples: the answer is right for every circle if and only if the segment is one of those and every ordinate is exact |
| LineBounds.HitIsNear | xpilot_ai/c/cAI_referenceonly.c:2744-2811 | for every segment and circle, an answer of true is right for the circle of radius one more |
| LineBounds.NearIsHit | xpilot_ai/c/cAI_referenceonly.c:2744-2811 | for every segment and circle, an intersection is detected once the radius is widened by the step max(1, width / 10) times 1 + |dy|/dx, and 1; by max(1, height / 10) for upright segments |
| LineBounds.FalseAlarm | xpilot_ai/c/cAI_referenceonly.c:2772 | truncation answers true for a point below the segment, which the segment does not meet |
| LineBounds.SamplesCanMiss | xpilot_ai/c/cAI_referenceonly.c:2744-2745 | a circle that meets a segment of length 100 and contains none of its samples |
| LineProbe.EmptyMisses | xpilot_ai/c/chaser.c:341 | an empty slot is met by no segment without negative coordinates |
| SafeMap.ContentsSize | xpilot_ai/c/chaser.c:1120-1148 | the slots in use are the avoided places, each once |
| SafeMap.SetRadius | xpilot_ai/c/chaser.c:1123-1137 | overwriting a slot's radius changes just that place's radius |
| SafeMap.FillSlot | xpilot_ai/c/chaser.c:1143-1147 | filling the first empty slot adds just that place |
| SafeMap.DropSlot | xpilot_ai/c/chaser.c:1177-1186 | moving the later slots up forgets just the one place and leaves no gap |
| SafeMap.Chaser.constructor | xpilot_ai/c/chaser.c:338-345 | all slots start empty and nothing is avoided |
| SafeMap.Chaser.AddDangerPoint | xpilot_ai/c/chaser.c:1115-1154 | sets the radius of a place unless the place is new and ten are kept; answers 1 exactly when that changes something |
| SafeMap.Chaser.RemoveDangerPoint | xpilot_ai/c/chaser.c:1157-1191 | forgets exactly that place; answers 1 for a place that was kept and also, without effect, for the mark of an empty slot |
| SafeMap.Chaser.HitByAny | xpilot_ai/c/chaser.c:286-295 | the inner loop answers whether some slot hits the edge |
| SafeMap.Chaser.ModMap | xpilot_ai/c/chaser.c:268-296 | the safe map is the map without exactly the edges whose segment hits the circle of some slot, in the same order |
| SafeMap.ClearMeansClearOf | xpilot_ai/c/chaser.c:286-295 | on coordinates that are not negative only avoided places count |
| SafeMap.SafeMapIsFilter | xpilot_ai/c/chaser.c:268-296 | the safe map is a valid graph and keeps an edge exactly when it is clear of all avoided places |
| SafeMap.KeptEdgeIsSafe | xpilot_ai/c/chaser.c:268-296 | an edge that stays in the safe map does not come within r of a place that is kept with r and as much more as covers the gaps between its samples |
| SafeMap.DroppedEdgeIsNear | xpilot_ai/c/chaser.c:268-296 | an edge that is taken out does come within the radius and one of some place that is kept |
| BeeDance.DigitCount | xpilot_ai/c/beeDance.c:159-164 | the dividing loop stops at the number of decimal digits |
| BeeDance.LeadingDigit | xpilot_ai/c/beeDance.c:171-176 | dividing by the place of the highest digit splits that digit off and leaves the rest |
| BeeDance.Units | xpilot_ai/c/beeDance.c:157-176 | the two loops compute the decimal digits, highest first |
| BeeDance.ValueOfDigits | xpilot_ai/c/beeDance.c:155-176 | the digits read back as the number |
| BeeDance.GetParent | xpilot_ai/c/beeDance.c:238-240 | the tree lookup undoes a move down: the child is one of the two nodes below the answer |
| BeeDance.DigitMoves | xpilot_ai/c/beeDance.c:202-220 | the walks of the ten digits, letter by letter: l, r, ll, lr, rl, rr, lll, llr, lrl, lrr |
| BeeDance.GetDepthOfNumber | xpilot_ai/c/beeDance.c:242-250 | the loop counts the moves to a node |
| BeeDance.WalkTo | xpilot_ai/c/beeDance.c:202-220 | filling the path from its end and turning it into moves gives the walk to the node |
| BeeDance.BuildDance | xpilot_ai/c/beeDance.c:145-236 | the dance spells every digit with a pause and ends in a second pause |
| BeeDance.DanceOfTen | xpilot_ai/c/beeDance.c:145-236 | the dance for 10 is rplpp |
| BeeObserve.Observer.Observe | xpilot_ai/c/beeObserve.c:148-179 | one frame stores the pending letter at the initial heading, and otherwise the rear overrides and the first side stays |
| BeeObserve.ExcursionsSnoc | xpilot_ai/c/beeObserve.c:149-163 | one more frame completes the current excursion or lengthens it |
| BeeObserve.RecordedSnoc | xpilot_ai/c/beeObserve.c:148-179 | what one more frame adds to the declarative reading is what the automaton adds |
| BeeObserve.Observer.Watch | xpilot_ai/c/beeObserve.c:111-183 | over any trace the moves recorded are one letter for each completed excursion that touched a window: the end of a word if it touched the rear at any time, else its first side |
| BeeObserve.WalkEndsAtNode | xpilot_ai/c/beeObserve.c:226-236 | walking down the moves to a node ends at that node, for every node of the infinite tree |
| BeeObserve.ConvertToNumber | xpilot_ai/c/beeObserve.c:223-241 | walks down at most three moves |
| BeeObserve.InterpretCoord | xpilot_ai/c/beeObserve.c:185-221 | the decoding loop reads one coordinate from where the last call stopped |
| DanceProtocol.ReadCoordinate | xpilot_ai/c/beeObserve.c:185-221 | decoding a danced number yields its digits and stops right behind it |
| DanceProtocol.MessageRoundTrip | xpilot_ai/c/beeDance.c:56-71 | for all naturals x and y two decodings of the danced message in a row yield x and then y and consume it all |
| DanceProtocol.MessageOfOneZero | xpilot_ai/c/beeDance.c:56-71 | the message for (1, 0) is lrpplpp, and is seen as lr__l__ |
| DanceProtocol.PauseThroughSide | xpilot_ai/c/beeObserve.c:165-179 | a trace that leaves the initial heading, sweeps past a side to the rear and comes back is recorded as exactly one end of word |
| DanceProtocol.FirstSideRecorded | xpilot_ai/c/beeObserve.c:148-179 | an excursion that keeps away from the rear is recorded as l or r, whichever side it comes to first |
| DanceProtocol.PerformableStrings | xpilot_ai/c/beeObserve.c:148-179 | some trace is recorded as a string if and only if the string consists of sides and pauses |
| DanceProtocol.MessagePerformable | xpilot_ai/c/beeDance.c:56-71 | for all x and y the message can be performed |
| DanceProtocol.DanceAndRead | xpilot_ai/c/beeObserve.c:49-70 | whoever performs the message of a food source, the watcher reports honey at x and y |
| Partition.ConnectedSymmetric | xpilot_engine/mapconvert.py:231-237 | a chain of matching sides can be walked back |
| Partition.FillPart | xpilot_engine/mapconvert.py:243-259 | the stack loop ends and numbers exactly one more closed part, keeping earlier entries |
| Partition.PolyPartition | xpilot_engine/mapconvert.py:230-261 | every wall cell gets a part number and an unwrapped position that a chain from the part's first cell leads to; parts are numbered in the order of the scan, row by row, and no cell of a part comes before its first cell |
| Partition.SamePartIsConnected | xpilot_engine/mapconvert.py:230-261 | two wall cells have the same number if and only if a chain of matching sides on the torus joins them |
| Partition.SeedsAreComponents | xpilot_engine/mapconvert.py:230-261 | there are as many components as partnum says: each wall cell is joined to exactly one of the first cells |
| Outlines.LinkedIsSolid | xpilot_engine/mapconvert.py:231-237 | two neighbouring tiles belong together if and only if noedge finds wall on both sides of the edge they share, as seen from its two corners, for each of the four directions |
| Outlines.TwoParts | xpilot_engine/mapconvert.py:231-259 | the tiles x and a side by side make two parts |
| Tracing.NoEdgeIsSolid | xpilot_engine/mapconvert.py:185-203 | noedge holds of a corner and a direction if and only if the map is solid just to the right of the way, where the tiles x and # are solid throughout, s above and q below the one diagonal, a above and w below the other |
| Tracing.WallAtHead | xpilot_engine/mapconvert.py:185-203 | seen from its far end, a half-edge with wall on the left has it on the right of the way back, so the inner loop stops |
| Tracing.NextBoundary | xpilot_engine/mapconvert.py:289-291 | the next half-edge has wall on the left and none on the right, and never turns straight back |
| Tracing.LeftmostOpen | xpilot_engine/mapconvert.py:288-291 | the next half-edge starts where the last one ends and is the first way open, going through the directions from the sharpest left turn to the right |
| Tracing.NextInjective | xpilot_engine/mapconvert.py:289-291 | different half-edges continue differently |
| Tracing.PathSnoc | xpilot_engine/mapconvert.py:273-302 | a trace that has not closed goes on to a half-edge it has not visited |
| Tracing.PathFits | xpilot_engine/mapconvert.py:273-302 | a trace is no longer than there are half-edges, so tracepoly ends |
| Tracing.TurnRight | xpilot_engine/mapconvert.py:289-291 | the rotate loop stops at the first open direction |
| Tracing.TraceStep | xpilot_engine/mapconvert.py:277-291 | one turn of the outer loop marks the tile and moves on to the next half-edge |
| Tracing.TracePoly | xpilot_engine/mapconvert.py:267-302 | the result is the unbroken polygon of a whole orbit, or None exactly where the orbit first takes a forbidden direction; the marks left are those of the half-edges passed |
| Tracing.DrawsSums | xpilot_engine/mapconvert.py:275-277 | an unbroken line ends at its start plus the sum of its displacements |
| Tracing.OrbitClosesUp | xpilot_engine/mapconvert.py:292-293 | around an orbit the displacements add up to multiples of width and height |
| EdgeOrbits.MeetingOrbits | xpilot_engine/mapconvert.py:267-302 | two orbits that share a half-edge are the same |
| EdgeOrbits.MarkedHasStart | xpilot_engine/mapconvert.py:278-287 | the tile that a half-edge marks is a start tile, whose start lies on the same orbit |
| EdgeOrbits.OrbitFrom | xpilot_engine/mapconvert.py:267-302 | every half-edge along the wall lies on an orbit |
| FindEdges.TraceTile | xpilot_engine/mapconvert.py:305-330 | at a tile the first pass traces its start unless its orbit is already drawn, and files the polygon with the part of the tile, from the corner of the tile at which the start leaves |
| FindEdges.FirstPassCovers | xpilot_engine/mapconvert.py:305-330 | after the first pass every half-edge that marks a tile is drawn |
| FindEdges.TraceUp | xpilot_engine/mapconvert.py:333-341 | at a tile of the first row an unmarked upward start is traced, and is drawn afterwards in any case |
| FindEdges.ListedInOrder | xpilot_engine/mapconvert.py:305-354 | the polygons of a part are listed in the order in which they were found |
| FlatEdges.UpsCovered | xpilot_engine/mapconvert.py:333-341 | after the second pass every upward half-edge is drawn |
| FlatEdges.TraceTopAndBottom | xpilot_engine/mapconvert.py:345-354 | at a tile of the first column bands along the row are traced once, on either side |
| FlatEdges.EverythingCovered | xpilot_engine/mapconvert.py:305-354 | after the third pass no half-edge is left |
| FlatEdges.PolyFindEdges | xpilot_engine/mapconvert.py:263-354 | the polygons draw whole orbits, no two share a half-edge, every half-edge is drawn, and each is filed with the part of the wall on its left; they are found tile by tile, then along the first row, then down the first column |
| Outlines.DrawnExactlyOnce | xpilot_engine/mapconvert.py:263-354 | every half-edge along the wall is drawn by exactly one polygon |
| Outlines.PolygonsCloseUp | xpilot_engine/mapconvert.py:263-354 | each polygon's displacement is a multiple of width and height |
| Outlines.PolygonStaysInPart | xpilot_engine/mapconvert.py:263-354 | all the wall along a polygon belongs to the part that the polygon is listed for |
| Outlines.OutlineWalls | xpilot_engine/mapconvert.py:561-566 | the partition and the search one after the other |
| FindMin.ApartGradually | xpilot_engine/mapconvert.py:378-396 | one step along a polygon brings it closer by at most the root of 2, under any distance function that gives the shortest of the wrapped images |
| FindMin.FallsSlowly | xpilot_engine/mapconvert.py:395-396 | after i steps the distance has fallen by at most 1.4143 times i |
| FindMin.SkippedAreFar | xpilot_engine/mapconvert.py:396 | no point that the jump passes over is closer than the best pair so far |
| FindMin.SearchFrom | xpilot_engine/mapconvert.py:379-396 | the inner loop ends, and keeps the best pair over the points seen and skipped |
| FindMin.FindMin | xpilot_engine/mapconvert.py:370-398 | a pair and a vector as short as any between images of points of the two polygons, or None when none is shorter than the bound, with the swap undone |
| Minwrap.PlainShortest | xpilot_engine/mapconvert.py:509-510 | without wrapping the plain difference is shortest |
| Minwrap.TorusShortest | xpilot_engine/mapconvert.py:513-516 | the centred remainders give the shortest vector on the torus |
| Minwrap.CenteredIs | xpilot_engine/mapconvert.py:513-516 | of two remainders that are equally short the negative one is taken |
| Minwrap.StripShortest | xpilot_engine/mapconvert.py:528-530 | taking off the nearest multiple of the way around gives the shortest vector on the strip |
| Minwrap.RoundIs | xpilot_engine/mapconvert.py:528-530 | the number of times around is rounded to the nearest integer, halves away from 0 |
| Minwrap.FoundIsGradual | xpilot_engine/mapconvert.py:275-277 | the polygons found move by at most one in each coordinate, as the jump needs |
| SpanningTree.JoinedByRoutes | xpilot_engine/mapconvert.py:532-554 | edges join all vertices if and only if there is a route between any two |
| SpanningTree.Exchange | xpilot_engine/mapconvert.py:543-547 | the lightest edge out of the tree can replace some edge of any connected rest at no more weight |
| SpanningTree.PrimIsMinimal | xpilot_engine/mapconvert.py:535-554 | a tree grown along lightest edges weighs no more than any set of edges that joins all vertices |
| PolyLink.GapSymmetric | xpilot_engine/mapconvert.py:375-398 | the gap between two polygons is the same from either side |
| PolyLink.Update | xpilot_engine/mapconvert.py:536-540 | after a comparison with the polygon linked last, a node knows the closest of all linked polygons |
| PolyLink.Select | xpilot_engine/mapconvert.py:541-545 | picks a node of least distance |
| PolyLink.LinkNext | xpilot_engine/mapconvert.py:535-554 | one turn links the node that is closest to the linked ones, and records the link at the linked node |
| PolyLink.LinkPolys | xpilot_engine/mapconvert.py:532-554 | the loop ends with every polygon linked once, each link where its two polygons are closest and the shortest out of those linked before |
| PolyLink.LinksAreMinimal | xpilot_engine/mapconvert.py:532-554 | the links connect all polygons of the part, and no other connection has a smaller sum of squared gaps |
| EulerTour.TakeLinks | xpilot_engine/mapconvert.py:409-417 | the inner loop takes the links of a corner one after the other and removes them |
| EulerTour.Traverse | xpilot_engine/mapconvert.py:406-424 | the recursion ends and appends exactly the tour of the node and all that hangs from it |
| TourLaws.TourTimes | xpilot_engine/mapconvert.py:406-424 | a tour has each side and each link below the node exactly once each way, and nothing else |
| TourLaws.TourHasAll | xpilot_engine/mapconvert.py:406-424 | the line of a part is a permutation of all sides of its polygons and all links out and back |
| TourLaws.TourConserves | xpilot_engine/mapconvert.py:406-424 | the displacements written out add up to those of the polygons: the links cancel |
| ClosedLine.OnceAround | xpilot_engine/mapconvert.py:418-424 | once around a polygon is its whole displacement wherever one starts |
| ClosedLine.TourUnbroken | xpilot_engine/mapconvert.py:406-424 | when the polygons close, exactly or around a repeating plane, the line has no jumps on that plane |
| ClosedLine.NoJumps | xpilot_engine/mapconvert.py:406-424 | in a line without jumps each position plus offset is the next position, exactly or up to whole repetitions of the plane |
| ClosedLine.LinkAndTraverse | xpilot_engine/mapconvert.py:532-556 | poly_link up to its rewrapping: a minimal linking and its tour from the first corner of the first polygon |
| Winding.Polydir | xpilot_engine/mapconvert.py:356-368 | for a polygon that never turns straight back the direction is the number of full turns to the left: 8 times it is the sum of the turns once around, each ((e - d + 12) % 8) - 4 |
| Winding.FoundTurns | xpilot_engine/mapconvert.py:356-368 | this holds of every polygon that is found |
| Winding.TileDirection | xpilot_engine/mapconvert.py:356-368 | the outline of a single filled tile has direction 1 |
| Winding.HoleDirection | xpilot_engine/mapconvert.py:356-368 | the outline of a hole of a single tile has direction -1 |
| Winding.DirectionIsWhole | xpilot_engine/mapconvert.py:356-368 | the winding of a traced polygon is even, so that the floor division is exact |
| Winding.DirectionFromAnywhere | xpilot_engine/mapconvert.py:356-368 | the direction does not depend on the corner at which the polygon starts |
| WallExtent.PartReach | xpilot_engine/mapconvert.py:239-259 | the unwrapped positions of a part stay within as many cells of the map as the map has |
| WallExtent.PartMeasurable | xpilot_engine/mapconvert.py:501-535 | whatever the way a part wraps, the polygons found for it satisfy all that findmin asks, given a square root that is accurate up to 800 times the squared number of cells |
| WallExtent.QuarterRootMeasures | xpilot_engine/mapconvert.py:378-396 | the integer root of 16 n, in quarters, is accurate enough on every map whose distances stay below 1e98 |
| WallExtent.OrdinaryMaps | xpilot_engine/mapconvert.py:378-405 | distances stay below 1e98 on every map of up to 3e47 cells, so that root measures them all |
| MakePolys.SortPolys | xpilot_engine/mapconvert.py:496-506 | the three lists hold the polygons by the sign of their direction, in order and each once |
| MakePolys.LinkPart | xpilot_engine/mapconvert.py:495-556 | poly_link up to its rewrapping for the polygons of any map: refused exactly when a direction assertion fails or there is no polygon, while the coordinate assertions never fail; otherwise the line of a minimal linking |
| PartKinds.BoundedMeans | xpilot_engine/mapconvert.py:507-511 | links are measured on the plain plane if and only if exactly one polygon turns to the left and all others to the right |
| PartKinds.BothWaysMeans | xpilot_engine/mapconvert.py:512-517 | links are measured on the torus if and only if all polygons turn to the right |
| PartKinds.OneWayMeans | xpilot_engine/mapconvert.py:518-531 | links are measured on a strip if and only if two polygons lead around the map and all others turn to the right; the way around is the displacement of the first of the two |
| PartKinds.TileIsBounded | xpilot_engine/mapconvert.py:507-511 | a single filled tile is a bounded part |
| PartKinds.LinkLeads | xpilot_engine/mapconvert.py:507-553 | in a bounded part a link leads exactly from its one point to the other; otherwise up to multiples of width and height, or of the way around |
| PartKinds.LineStart | xpilot_engine/mapconvert.py:532-555 | the line starts at the polygon that turns to the left, else at the second one that leads around, else at the last one found |
| MakePolys.LineUnbroken | xpilot_engine/mapconvert.py:532-556 | on the torus the line of every part has no jumps and leads back to its start |
| MakePolys.LineHasAll | xpilot_engine/mapconvert.py:532-556 | the line of every part has each side once and each link both ways, and no other connection of its polygons has a smaller sum of squared gaps |
| MakePolys.PartHasPolygons | xpilot_engine/mapconvert.py:263-354 | a part has a polygon to link if and only if some boundary runs along it |
| MakePolys.MakePolys | xpilot_engine/mapconvert.py:561-571 | the whole conversion from tiles to one line for each connected part of the wall, up to the rewrapping |
| WallLines.TourInPlace | xpilot_engine/mapconvert.py:406-424 | on the torus each side of each polygon is drawn where the polygon has it |
| WallLines.WallDrawnOnce | xpilot_engine/mapconvert.py:561-571 | a half-edge has wall on its left and none on its right if and only if it is an entry of a line; it is a single entry of a single line, that of the part on its left, and all other entries are links |
| WrapEuclid.EuclidLoop | xpilot_engine/mapconvert.py:456-460 | for wrap counts of either sign the floor-division loop ends with the greatest common divisor and its multipliers |
| WrapEuclid.SecondWay | xpilot_engine/mapconvert.py:461-464 | a second way around with cross product 1 exists exactly when the counts are coprime, and is computed |

## Left out

- Dijkstra.Dijkstra: asks, for an end that cannot be reached, that it be the first such vertex and have no edges; DijkstraEnds.EndsExactly proves that the loop does not end without overflow in any other case.
- AStar.Astar: asks, for an end that cannot be reached, that no vertex that cannot be reached has an edge, up to the end in the order of the map; AStarEnds.SafeExactly proves that the search adds to INT_MAX in any other case.
- AStar.OptimalWhenConsistent: one direction only; the same inconsistent map is answered with a shortest path from one start and not from another, and AStar.AStarBound covers both.
- DijkstraStops.DijkstraN: asks that each leg be reachable; for any other leg dijkstra writes only the first entry of temppath, and dijkstra.c:262 goes on reading behind it.
- MapGraph.RemoveVertex: the empty graph is excluded, because num_v would become -1, and so are edges that do not join two distinct vertices of the graph, because remove_edge refuses them and the loop at graph.c:202 then repeats for ever.
- SafeMap.Chaser.AddDangerPoint: x = -1 is excluded, because a slot with x = -1 is an empty one to all loops.
- BeeObserve.Observer.Observe: the four headings are abstract windows of which a frame touches at most one; headingIsBetween is only declared, and the windows are 90 degrees apart.
- BeeObserve.InterpretCoord: buffers are sequences, while the source keeps three characters each for moves and digits; a number of four digits overruns them. A dance that ends in the middle of a coordinate is excluded, as the source would read past it. Only one message is covered, because dance_index is never reset.
- FindMin.FindMin: asks for distance functions that give the shortest of the wrapped vectors and for polygons that move by at most one step, which the three functions of poly_link and all traced polygons do; minwrap of poly_handle_totalwrap forbids the zero shift and does not.
- PolyLink.LinkPolys: all distances are taken to be below the 1e98 that stands for infinity in the source; WallExtent.PartMeasurable shows that they are, for maps of up to 3e47 cells (WallExtent.OrdinaryMaps).
- EulerTour.Traverse: recursion depth is not bounded.
- Machine integers: sums of weights and coordinates are unbounded integers; the searches ask that no sum of weights reaches INT_MAX.
- Fixed buffer sizes of maps, dances and paths; path arrays are asked to be long enough.
- LineProbe.LineInCircle: the sample's ordinate is computed in doubles by the source, while the model truncates the exact quotient. Rounding does not widen the class of segments on which the promise holds: LinePromise.AnySampling proves it for any ordinates at all, because a sample off the segment is itself a circle of radius 0 that is reported and not met. On that class the slope is 0, 1/2, 1 or 2 up to sign, which a double holds exactly. LineBounds.HitIsNear and LineBounds.NearIsHit are about exact quotients.
- qsort in astar and dijkstra: the vertices already come in order of id (chaser.c:203), so the table does not move and the index kept across the call stays right.
- Wall_here is a predicate of the pixel; drawing flags are dropped.
- malloc and free, printing, logging, timing, sockets, files, and the reading of maps and options.
- MakePolys.MakePolys: that polydir answers 0 exactly for polygons that do not close, and so that no part is refused for its directions, needs planar topology; parts that go around both ways are given before poly_handle_totalwrap.
- The rest of poly_handle_totalwrap: the splitting and rejoining of a line that goes around both ways.
- sortShips, the controllers of chasers, bees, boids and defenders, the map generators, flocking, aiming and fuel: no exact invariant, or only calls into the client library.
- getMPIndex and get_vs_index_a repeat the binary search that SearchTree.BinarySearch models once.
