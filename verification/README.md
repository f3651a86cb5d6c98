# A verified model of the GeoVerse map server

The map server is written in Go. This project models the parts of it whose correctness is not
visible from any one function, and proves what those parts are for. Every Go file that works by
changing things step by step is modelled by methods over arrays, sequences, maps and classes; each
method is proved against a specification, and the specifications carry the theorems.

`dafny verify dfyconfig.toml` checks everything.

| module | models | main results |
|---|---|---|
| `TileId` | Hilbert tile ids | bijection per zoom, neighbours, when ids collide |
| `Varint`, `Directory`, `Lookup` | PMTiles directories | round trip, what can be decoded, descent equals a linear scan |
| `ArchiveLayout` | PMTiles archives as files | writing an archive and asking for a tile gives the bytes that were put down |
| `TileServer` | tile requests and the tile cache, step by step | the tile that was asked for; exactly when every later reply is right, and when a source can be replaced |
| `MarchingSquares`, `RingChain`, `BinaryGrid` | contours of a raster | rings always close, partition the segments and stay at one piece of the raster; the raster can be read back |
| `Isochrone` | raster sizing, one contour pass | nothing is dropped or clipped; exactly the reachable part is kept, in one piece; when the border is touched; when the suggested cell size helps |
| `Paths`, `Search` | Dijkstra, A*, path reconstruction | least costs over all walks, acyclic links, bounded pushes |
| `Builder`, `ShortestPath`, `Networks` | the network builder, routes, the networks of a server | exactly which edges features give; exactly when the A* heuristic is consistent and admissible; from features to a shortest route, and back; whose features a route is over |
| `Dbscan` | density clustering | the labelling is the one the definition prescribes |
| `MapMatch`, `MatchedRoute` | matching a trace, drawing the match | the chosen chain is best among all chains, and through nearest candidates where one is; exactly when a drawn route has the length the lattice counted |
| `Lru`, `DiskTier`, `Tiered` | the two-tier cache | order of use, LRU inclusion, sweeps, last value written, age bound |
| `Engine`, `Items` | the feature index, paging | exactly when the grid equals a linear filter; pages cover every match once |
| `SourceRegistry`, `Admin` | sources on a running server | file, configuration and registry in step; every source closed once |

`Numbers`, `Names` and `Options` hold shared definitions.

Numbers of type float64 are exact reals. Great-circle distance is any metric. A cancelled context is
a function that says which look at the context finds it cancelled. Conversions from float64 to int
and int32 are those of amd64: towards zero, and the least integer for what is out of range. 32- and
64-bit wrap-around is written out where the source relies on it or could suffer from it.

## What the proofs found

Some statements one would make about the code hold only under a condition. The code is modelled as
it is, and the condition is exact:

- `zxyToID` does not check its column and row. Two tiles have the same id exactly when they have the
  same zoom and agree modulo 2^z (`TileId.IdsCollideIff`). Only a direct Go call to `Source.Tile` can
  run into that: `parseTile` stands before every route of the server, and behind it ids are equal only
  for equal tiles (`TileServer.AdmittedIdsDiffer`), so the server answers with the tile that was asked
  for (`TileServer.AnswerIsTheTile`).
- Replacing a source leaves the tile cache and the requests under way as they are. From any state,
  every request that takes the present source of its layer gets what that source holds, for as long as
  it is not replaced, exactly when no value that the cache still holds, and none that a request under
  way will still store, differs from it (`TileServer.AlwaysRightIff`). So a source can be replaced by
  any other of the same zooms exactly when nothing is cached for its name and these zooms and no
  request under way will store anything for them (`TileServer.AnyReplacementIsRightIff`). An empty
  cache is not enough (`TileServer.LateStoreExample`), and removing the source first does not help
  (`TileServer.RemoveForgetsNothing`).
- A configuration admits the names `.` and `..` for a layer. The tiles of such a layer are the only
  ones that the disk tier never keeps (`TileServer.LayerKeysAreSafe`).
- The comment in `contourGrid` says that padding keeps contours off the border. `int()` takes what it
  drops from the far side: the dilated raster of a contour never touches the first column or row, but
  touches the last ones exactly when the width or the height is half a cell or more past a whole
  number of cells (`Isochrone.ContourTouchesBorderIff`, `Isochrone.TouchesBorderExample`). Rings close
  and nothing is dropped all the same.
- The comment on `suggestionMargin` says that the suggested cell size is one the caller can use. It is
  accepted exactly when the padding of a long thin box leaves room for it
  (`Isochrone.SuggestionAcceptedIff`); for one degree due north at 8 mm it is refused in turn
  (`Isochrone.SuggestionRefusedExample`).
- The A* heuristic is consistent for every goal, and admissible for every goal, exactly when every edge
  costs at least its straight line at the highest speed (`Builder.ConsistentIff`,
  `Builder.AdmissibleIff`). A connector with a short fixed duration breaks this, and so do two different
  points that snap to one node. A* can then come back with a route that is not the cheapest
  (`ShortestPath.MissTheDetour`).
- A network is built from what its source holds at the first call that succeeds, and a network that
  could not be built stays so, whatever happens to the source later (`Networks.RouteIsOverFirst`,
  `Networks.FailureStays`).
- The drawn part between two matched points is never longer than the distance the lattice counted, but
  it can be shorter: the search for the drawing has no bound. They are equal exactly when a best way in
  starts from a node within the bound of the lattice's search (`MatchedRoute.DrawnAgainstLattice`,
  `MatchedRoute.DrawnShorterExample`).
- For features with non-empty geometries `query` agrees with a linear filter exactly when the box misses
  the extent or its scaled greatest corner is below 2^63; a box up to 10^18 degrees makes the conversion
  overflow (`Engine.QueryExample`). A feature with an empty geometry has the bound (1,1) to (-1,-1). With
  such features a box around the unit square also has to reach into the extent, and the two corners of
  that bound have to fall into one cell (`Engine.QueryExactIff`, `Engine.EmptyGeometryExample`).
- A value returned by the two-tier cache can be older than both times to live together, by exactly
  as much as a lookup can stall between its look at the age of the file and its return
  (`Tiered.AgeBoundIff`). A failed disk write can bring an older value back
  (`Tiered.FailedWriteExample`); `Tiered.CallKeepsCurrent` says exactly when.
- LRU inclusion holds with expiry switched on, too (`Lru.Inclusion`).
- The second validation in `handleSaveSource` cannot fail (`Admin.SavedConfigIsValid`).

## Model

| member | source | states |
|---|---|---|
| MarchingSquares.DegreeIsTwo | internal/algo/routing/marching.go:84-128 | for every raster, every midpoint a contour segment ends at lies on exactly one other segment, drawn in the block across that side |
| MarchingSquares.NoDoubleSegs | internal/algo/routing/marching.go:84-128 | no two of the drawn segments join the same two midpoints |
| MarchingSquares.MeetingSegs | internal/algo/routing/marching.go:84-128 | segments that meet lie in blocks of different chessboard colours |
| MarchingSquares.SegsEndAtCrossings | internal/algo/routing/marching.go:84-128 | a midpoint is on a segment exactly when one of its two samples is marked and the other is not |
| MarchingSquares.ScanBlock | internal/algo/routing/marching.go:87-126 | the segments of one 2x2 block extend the drawn field by exactly what the block needs, the virtual border included |
| RingChain.BuildAdjacency | internal/algo/routing/marching.go:139-143 | the adjacency lists hold, both ways, exactly the ends of the segments |
| RingChain.NotStuck | internal/algo/routing/marching.go:156-172 | from a loose end the neighbour list always holds an unused way on that does not lead straight back |
| RingChain.OnlyWayOn | internal/algo/routing/marching.go:156-172 | whatever neighbour is accepted lies across the one free segment at the loose end |
| RingChain.MoveOn | internal/algo/routing/marching.go:156-172 | a step keeps the state of the walk and uses up one segment |
| RingChain.FirstFree | internal/algo/routing/marching.go:158-166 | the first neighbour that is not where the walk came from and not across a used edge |
| RingChain.Walk | internal/algo/routing/marching.go:149-176 | the walk from an unused segment gets back to its start and the "open chain" break is never taken |
| RingChain.RingIsLong | internal/algo/routing/marching.go:149-176 | a finished ring has at least five points and an odd number of them, first point repeated |
| RingChain.RingPoints | internal/algo/routing/marching.go:138-177 | the points on the rings are exactly the ends of the segments |
| RingChain.Chain | internal/algo/routing/marching.go:138-177 | every ring is closed and simple, rings share no point, and together they run through every segment exactly once |
| BinaryGrid.Grid.At | internal/algo/routing/marching.go:26-31 | a sample is marked, false outside the raster |
| BinaryGrid.Grid.Set | internal/algo/routing/marching.go:33-37 | adds one sample, nothing outside the raster |
| BinaryGrid.Grid.MarkPoint | internal/algo/routing/marching.go:39-43 | adds the sample nearest to the point, halves rounded away from zero |
| BinaryGrid.CellOfIsNearest | internal/algo/routing/marching.go:39-43 | the cell a point falls into is that of a sample nearest to it |
| BinaryGrid.CellOfSample | internal/algo/routing/marching.go:39-43 | a sample falls into its own cell, whatever the transform |
| BinaryGrid.ContourIsHalfway | internal/algo/routing/marching.go:130-136 | a point of a contour lies halfway between a marked sample and an unmarked one beside it, in degrees |
| BinaryGrid.Grid.MarkSegment | internal/algo/routing/marching.go:45-53 | adds exactly the samples of the segment's trace that lie in the raster |
| BinaryGrid.StepsAreFewest | internal/algo/routing/marching.go:45-53 | a segment takes as few steps as keep each below half a cell along both axes |
| BinaryGrid.StopsAreEven | internal/algo/routing/marching.go:45-53 | the sampled points lead from one end to the other at equal distances |
| BinaryGrid.TraceIsConnected | internal/algo/routing/marching.go:45-53 | the trace is an 8-connected path from the cell of one end to the cell of the other |
| BinaryGrid.Dilate | internal/algo/routing/marching.go:55-73 | the new buffer holds exactly the samples within one cell of a marked one |
| BinaryGrid.Grid.DilateMarks | internal/algo/routing/marching.go:55-73 | the raster is replaced by its dilation |
| BinaryGrid.CorridorIsConnected | internal/algo/routing/marching.go:39-73 | after dilation the samples near an 8-connected path are connected over sides |
| BinaryGrid.ScanIsClosedField | internal/algo/routing/marching.go:84-128 | what the scan draws always meets the condition under which the rings close |
| BinaryGrid.Grid.Scan | internal/algo/routing/marching.go:84-128 | the double loop draws all segments of all blocks, each once; they end exactly at the crossings |
| BinaryGrid.Grid.Contours | internal/algo/routing/marching.go:84-177 | for every raster: closed simple rings of at least five points, no shared points, every segment used once, points exactly at the crossings; and a ring stays at one piece of the raster: between the marked samples beside any two of its points one can walk over sides through marked samples |
| BinaryGrid.NoGapInBlock | internal/algo/routing/marching.go:108-126 | the marked samples beside the two ends of a segment are joined over sides inside its block, in all sixteen cases, the two saddles included |
| BinaryGrid.StretchesStayAtPiece | internal/algo/routing/marching.go:149-176 | so are those beside any two points of a ring, through marked samples of the raster |
| BinaryGrid.CornersGetTwoRings | internal/algo/routing/marching.go:112-124 | two marked samples that touch only at a corner are not on one ring |
| BinaryGrid.RasterFromRings | internal/algo/routing/marching.go:84-177 | a sample is marked exactly when an odd number of contour points lie to its left on its row |
| Isochrone.AutomaticSizeFits | internal/algo/routing/isochrone.go:146-186 | the automatic cell size is never refused |
| Isochrone.CellSizeMeans | internal/algo/routing/isochrone.go:147-155 | a given cell size is taken; the automatic one cuts the longer side into 128 cells, or into fewer of five metres |
| Isochrone.MeasuredHalfway | internal/algo/routing/isochrone.go:147-150 | degrees of longitude are measured at the latitude halfway up the box |
| Isochrone.SizedIsBounded | internal/algo/routing/isochrone.go:146-186 | a raster that is not refused is never empty and has at most the allowed number of cells |
| Isochrone.SuggestionAcceptedIff | internal/algo/routing/isochrone.go:165-180 | for every refused size: the suggested size is accepted exactly when the padding of the box has room at that size; the comment in the code says it always is |
| Isochrone.SuggestionRefusedExample | internal/algo/routing/isochrone.go:165-180 | one degree due north with cells of about 8 mm: the suggested size is refused in turn |
| Isochrone.AxisPadding | internal/algo/routing/isochrone.go:159-185 | a coordinate inside the bounds lands at least two cells from either end |
| Isochrone.NearBorderIsClear | internal/algo/routing/isochrone.go:159-185 | dilation never marks a sample of the first column or row |
| Isochrone.TouchesLastColumnIff | internal/algo/routing/isochrone.go:159-185 | for every set of marks inside the bounds with one at the easternmost column: the dilated raster touches its last column exactly when the width is half a cell or more past a whole number of cells; the comment in the code says it never does |
| Isochrone.TouchesLastRowIff | internal/algo/routing/isochrone.go:159-185 | the same for the last row and the height |
| Isochrone.ContourTouchesBorderIff | internal/algo/routing/isochrone.go:159-245 | for the segments and bounds that a contour pass from one origin collects: never the first column or row, the last ones exactly under those conditions |
| Isochrone.TouchesBorderExample | internal/algo/routing/isochrone.go:159-185 | the raster sized for a street half a cell long has five columns, and dilation marks the last of them |
| Isochrone.TraceIsPadded | internal/algo/routing/isochrone.go:159-185 | on a raster sized for the bounds no sample of a segment inside them is dropped or close enough to the border for dilation to be clipped |
| Isochrone.SegmentCorridor | internal/algo/routing/isochrone.go:159-185 | so the dilated corridor of every segment is connected over sides |
| Isochrone.KeptIsReachable | internal/algo/routing/isochrone.go:217-233 | with labels of one search up to a larger cutoff, exactly the part of an edge that can be reached within the smaller cutoff is kept |
| Isochrone.KeptEndsWithBudget | internal/algo/routing/isochrone.go:210-233 | a kept segment begins at the node the edge leaves; it ends at the far node when that is reached along the edge, otherwise where the edge divides as budget left to cost |
| Isochrone.CollectSegments | internal/algo/routing/isochrone.go:196-235 | the collected segments are exactly the kept parts of the edges, the bounds are the least box around them and the reached nodes, and the reached nodes are counted |
| Isochrone.ReachedCountIs | internal/algo/routing/isochrone.go:196-200 | the count that is reported is the size of the set of nodes within the cutoff |
| Isochrone.BoxIsUnique | internal/algo/routing/isochrone.go:201-208 | a set of points has only one least box |
| Isochrone.ContourSegments | internal/algo/routing/isochrone.go:237-247 | refused exactly when the raster is; otherwise the rings run exactly around the samples within one cell of a segment |
| Isochrone.ContourForCutoff | internal/algo/routing/isochrone.go:190-247 | the whole contour pass: what is collected, its bounds, when there is no contour or a refusal, what the rings enclose, and that each stays at one piece |
| Isochrone.SameCut | internal/algo/routing/isochrone.go:93-115 | labels of a search up to the greatest cutoff and of a search up to this cutoff cut every edge at the same place |
| Isochrone.SameContour | internal/algo/routing/isochrone.go:93-115 | so one search serves all cutoffs: outcome, count and bounds are those a search of its own would give, and the rings run through the same points |
| Isochrone.CorridorIsOnePiece | internal/algo/routing/isochrone.go:190-245 | what is drawn for one origin is one piece: in the dilated raster one can walk over sides from any sample to any other |
| Isochrone.ReachedAreEnds | internal/algo/routing/isochrone.go:196-235 | with an origin and a cutoff above zero every reached node is an end of a kept segment, unless nothing is kept |
| Paths.LeastIsUnique | internal/algo/network/search.go:100-182 | two searches that both find least costs find the same costs |
| Paths.ReachedWithin | internal/algo/routing/isochrone.go:93-115 | one search up to a cutoff answers every smaller budget: labels within the budget are exactly the nodes a walk within it reaches |
| Search.PopMin | internal/algo/network/search.go:28-46 | an item of least priority is removed; ties are broken in any way |
| Search.SearchResult.constructor | internal/algo/network/search.go:71-82 | no node is reached at the start |
| Search.StartAt | internal/algo/network/search.go:103-108 | seeds are labelled with their least cost and queued |
| Search.Expand | internal/algo/network/search.go:121-134 | the loop over the outgoing edges does to the state exactly what its edges do in order; it keeps labels sound and links in order, and with a consistent heuristic leaves every edge of the node relaxed |
| Search.WalkCrossesFrontier | internal/algo/network/search.go:109-134 | every walk within the bound is either beaten by the label of its end or has an item in the queue that is due no later |
| Search.ImproveLabels | internal/algo/network/search.go:123-134 | an improvement keeps all labels sound and all predecessor links in order, zero-cost edges included |
| Search.PushBound | internal/algo/network/search.go:100-137 | an edge causes at most one push |
| Search.DijkstraSeeded | internal/algo/network/search.go:100-137 | terminates with at most |seeds|+|edges| pushes; every label is the cost of a walk and least among walks within the cutoff (for the target, when one is given) |
| Search.SpreadReaches | internal/algo/network/search.go:157-181 | when the queue runs empty every node that a walk leads to is labelled, whatever the heuristic |
| Search.AStar | internal/algo/network/search.go:144-182 | ends in a state that rounds of pop, settle and expand lead to, with sound labels and the goal labelled exactly when a walk leads to it, whatever the heuristic; with a consistent one the label of the goal is the least cost of all walks to it |
| Search.GuidedIsTight | internal/algo/network/search.go:123-134 | with a consistent heuristic each label equals its predecessor's plus the cost of the edge |
| Search.EarlierShrinks | internal/algo/network/search.go:55-69 | predecessor links lead to earlier nodes, so they have no cycles, not even over edges that cost nothing |
| Search.ReverseSlice | internal/algo/network/search.go:65-67 | the swapping loop reverses the list |
| Search.StepBack | internal/algo/network/search.go:60-64 | one more link extends the chain of edges at its front |
| Search.PathTo | internal/algo/network/search.go:55-69 | a chain of edges from a seed to the node whose cost with the seed's is the node's label; empty when it is not reached |
| Builder.SharedNodeIff | internal/algo/network/graph.go:129-131 | two points share a node exactly when they snap to the same coordinate on the same level |
| Builder.Builder.NodeId | internal/algo/network/graph.go:218-228 | finds or adds the node of a snapped point |
| Builder.Builder.Append | internal/algo/network/graph.go:230-239 | adds an edge and keeps the greatest speed |
| Builder.Builder.Segment | internal/algo/network/graph.go:241-251 | the edges of a street segment, back as well unless it is one-way, and none for points that snap together |
| Builder.Builder.Bridge | internal/algo/network/graph.go:253-271 | the edges of a connector between levels, back as well unless it is one-way; 30 seconds when it has neither length nor duration |
| Builder.Builder.Line | internal/algo/network/graph.go:205-212 | one line of a feature |
| Builder.LineIsLonger | internal/algo/network/graph.go:253-271 | a connector is at least as long as the distance between its ends |
| Builder.BuildIndexes | internal/algo/network/graph.go:273-283 | every edge is listed, once, under the node it leaves |
| Builder.CostsNonNegative | internal/algo/network/graph.go:60-65 | both cost functions are non-negative on a built network |
| Builder.AddFeaturesIsGood | internal/algo/network/graph.go:143-216 | whatever the features: nodes are indexed by snapped key, no edge is a loop, the greatest speed is that of an edge |
| Builder.AddFeaturesIsExact | internal/algo/network/graph.go:143-216 | when no two different points snap together no edge is shorter than the distance between its nodes |
| Builder.AddSegmentCoversIff | internal/algo/network/graph.go:241-251 | a segment keeps that exactly when it is no shorter than the distance between the nodes its ends snapped to |
| Builder.ConsistentIff | internal/algo/network/search.go:144-155 | the straight-line heuristic is consistent for every goal exactly when every edge costs at least its straight line at the highest speed |
| Builder.AdmissibleIff | internal/algo/network/search.go:139-155 | the straight-line heuristic never exceeds the cost of a walk to its goal, whatever the goal, exactly under the same condition |
| Builder.DistanceConsistentIff | internal/algo/network/search.go:144-155 | by distance: exactly when no edge is shorter than the distance between its nodes |
| Builder.TimeFairIff | internal/algo/network/graph.go:60-65 | by time: an edge priced by length and speed always is, one with a fixed duration exactly when the duration covers the straight line at the highest speed |
| Builder.HonestNetworkIsConsistent | internal/algo/network/search.go:144-182 | separate points and durations of at least length over the highest speed give a consistent heuristic by time and by distance |
| Builder.ShortDurationFails | internal/algo/network/graph.go:253-271 | a connector with a short fixed duration makes the estimate exceed the true cost |
| Builder.SnappedPointsFail | internal/algo/network/graph.go:218-251 | two points that snap together make an edge shorter than the distance between its nodes |
| Builder.Build | internal/algo/network/graph.go:143-216 | the network has an edge each way, or one way, for every stretch of every street and every connector, with their length, speed and duration, and no other edge; its graph is indexed; an error only for cancellation or when no line asks for an edge |
| Builder.AddFeaturesServes | internal/algo/network/graph.go:143-216 | whatever the features: the edges are those that their lines ask for, one each and in their order |
| Builder.ServedMeans | internal/algo/network/graph.go:241-271 | so every stretch of a street and every connector has its edge and, unless it is one-way, the edge back, and every edge is one of these |
| Builder.ServedIff | internal/algo/network/graph.go:241-271 | there is an edge between two snapped coordinates with this length, speed and duration exactly when some line asks for it |
| Builder.TravelSecondsMeans | internal/algo/network/graph.go:60-65 | an edge takes its fixed duration, and without one the time its length takes at its speed |
| ShortestPath.EveryEdgeLeadsBack | internal/algo/network/graph.go:241-271 | without one-way features every edge has one back, alike in length, speed and duration |
| ShortestPath.WalkBack | internal/algo/network/graph.go:241-271 | so every walk can be walked back for the same distance and in the same time |
| ShortestPath.ConnectedBothWays | internal/algo/routing/shortestpath.go:112-119 | without one-way features two nodes are connected one way exactly when they are the other way |
| ShortestPath.BackIsAsShort | internal/algo/routing/shortestpath.go:112-119 | and shortest routes there and back cost the same |
| ShortestPath.PathMeans | internal/algo/routing/shortestpath.go:112-119 | no path for two nodes exactly when they are not connected; otherwise a walk between them that costs no more than the label |
| ShortestPath.PathIsShortest | internal/algo/routing/shortestpath.go:112-116 | with a consistent heuristic no walk between the nodes costs less, and every search that finds least costs, Dijkstra among them, finds this cost |
| ShortestPath.HonestIsConsistent | internal/algo/network/search.go:144-155 | when no edge is shorter than the distance of its nodes, and for routes by time no fixed duration is too short, the heuristic that A* uses is consistent |
| ShortestPath.Run | internal/algo/routing/shortestpath.go:112-130 | not connected exactly when no walk exists; otherwise a route whose stops lead from the first node to the last along its edges, with the length and time of these edges, the best one whenever the network is honest |
| ShortestPath.StopsAlongWalk | internal/algo/routing/shortestpath.go:121-130 | the stops of a route begin at its first node, end at its last and follow its edges one by one |
| ShortestPath.RouteOver | internal/algo/network/graph.go:143-216 | from features whose points do not snap together to the best route, by distance always, by time when no fixed duration is too short |
| ShortestPath.DetourIsMissed | internal/algo/network/search.go:144-182 | on a network with two short connectors A* can only end with the street |
| ShortestPath.MissTheDetour | internal/algo/network/search.go:144-182 | so the search answers with a cost of one second although a route takes a fifth of it |
| Networks.Manager.Get | internal/algo/network/manager.go:64-90 | the first successful call for a name builds its network and the first failing one its failure, unless the caller has given up; later calls get the same |
| Networks.RouteIsOverFirst | internal/algo/network/manager.go:64-90 | in every run of calls an answered network is the one built from what the source yielded at the first call that succeeded |
| Networks.FailureStays | internal/algo/network/manager.go:64-90 | in every run a network that could not be built stays so |
| TileId.DistThenPoint | internal/source/pmtiles/pmtiles.go:361-383 | the position along the curve determines the tile |
| TileId.PointThenDist | internal/source/pmtiles/pmtiles.go:361-383 | and the tile the position, every position being taken |
| TileId.CurveEnds | internal/source/pmtiles/pmtiles.go:361-383 | the curve enters every square at its first corner and leaves at the end of the same side |
| TileId.CurveIsContinuous | internal/source/pmtiles/pmtiles.go:361-383 | consecutive positions are tiles that share a side, at every level |
| TileId.Round | internal/source/pmtiles/pmtiles.go:365-380 | one iteration in 32- and 64-bit words adds exactly what it takes off the distance that is left, and nothing wraps |
| TileId.CurveDistance | internal/source/pmtiles/pmtiles.go:364-381 | the loop computes the distance along the recursive curve |
| TileId.ZxyToId | internal/source/pmtiles/pmtiles.go:361-383 | the id is the number of tiles of lower zooms plus the distance along the curve, without overflow |
| TileId.BaseClosedForm | internal/source/pmtiles/pmtiles.go:362-362 | the first id of a zoom is (4^z-1)/3, the number of tiles of lower zooms |
| TileId.IdRange | internal/source/pmtiles/pmtiles.go:361-383 | ids of zoom z fill the interval from (4^z-1)/3 to (4^(z+1)-1)/3 and no other zoom's |
| TileId.IdsCollideIff | internal/source/pmtiles/pmtiles.go:343-383 | for all words, in the grid or not: ids are equal exactly for equal zooms and columns and rows that agree modulo 2^z |
| TileId.IdsAreOnto | internal/source/pmtiles/pmtiles.go:361-383 | every id of a zoom is that of a tile of the grid |
| TileId.ConsecutiveIdsAreNeighbours | internal/source/pmtiles/pmtiles.go:361-383 | tiles with consecutive ids share a side |
| Varint.ReadUvarint | internal/source/pmtiles/pmtiles.go:259-259 | the loop reads a varint as its format says, with errors for cut-off and too large numbers |
| Varint.ParseFits | internal/source/pmtiles/pmtiles.go:259-259 | a number that is read fits 64 bits |
| Varint.RoundTripAt | internal/source/pmtiles/pmtiles.go:259-259 | reading inverts writing, anywhere in the data |
| Varint.ColumnRoundTrip | internal/source/pmtiles/pmtiles.go:269-303 | so does reading a column of numbers |
| Directory.ReadIds | internal/source/pmtiles/pmtiles.go:268-276 | ids are deltas added up in 64 bits |
| Directory.ReadRuns | internal/source/pmtiles/pmtiles.go:277-282 | run lengths are stored as they are read |
| Directory.ReadLengths | internal/source/pmtiles/pmtiles.go:283-288 | lengths are stored as they are read, a zero is an error |
| Directory.ReadOffsets | internal/source/pmtiles/pmtiles.go:289-304 | offsets are stored less one, a zero stands for the end of the entry before and is an error for the first entry |
| Directory.DecodeDirectory | internal/source/pmtiles/pmtiles.go:254-306 | the four loops decode what the columns mean, with the errors for counts, cut-off columns, zero lengths and a first contiguous offset |
| Directory.DecodeInvertsEncode | internal/source/pmtiles/pmtiles.go:254-306 | decoding the column-wise encoding of a list of entries gives the list back, varints included |
| Directory.DecodableIff | internal/source/pmtiles/pmtiles.go:254-306 | a list with ids in order is what some bytes decode to exactly when it has 1 to 10,000,000 entries that fit the encoding |
| Directory.DirectoryExample | internal/source/pmtiles/pmtiles.go:254-306 | nine bytes for two entries, the second right behind the first |
| Lookup.FindEntry | internal/source/pmtiles/pmtiles.go:308-318 | on ids in order the binary search finds the last entry at or below the id, unless the id is past the end of its run |
| Lookup.FindIsLast | internal/source/pmtiles/pmtiles.go:308-318 | the same for the function the other lemmas use |
| Lookup.SearchSplits | internal/source/pmtiles/pmtiles.go:308-318 | it ends between an entry at or below the id and one above it |
| Lookup.TileEntry | internal/source/pmtiles/pmtiles.go:320-340 | at most four directories are opened; errors of reading, decompressing and decoding end the descent |
| Lookup.DescentIsRight | internal/source/pmtiles/pmtiles.go:320-340 | over a well-formed tree of any depth: an error exactly when the path has more directories than may be opened, otherwise the run that covers the id, or nothing when no run does |
| Lookup.RunsAreDisjoint | internal/source/pmtiles/pmtiles.go:320-340 | at most one run of a well-formed tree covers an id |
| Lookup.LookupIsScan | internal/source/pmtiles/pmtiles.go:320-340 | up to four levels, an entry is found exactly when it is in the flattened list of runs and covers the id |
| Lookup.FifthDirectoryFails | internal/source/pmtiles/pmtiles.go:320-340 | a lookup fails exactly for a path of more than four directories |
| Lookup.Tile | internal/source/pmtiles/pmtiles.go:343-359 | the bytes of the run that covers the tile's id, or no tile; which bytes of the file these are is the subject of the next rows |
| ArchiveLayout.SectionIsRead | internal/source/pmtiles/pmtiles.go:227-236 | whatever stands before and after it, a section is read as it was put down |
| ArchiveLayout.SectionRefusedIff | internal/source/pmtiles/pmtiles.go:227-236 | it is refused exactly when it runs past the end of the file or cannot be addressed |
| ArchiveLayout.LeafIsRead | internal/source/pmtiles/pmtiles.go:331-337 | a leaf directory whose packed encoding stands in the file is decoded to its entries |
| ArchiveLayout.TileIsWhatWasPutDown | internal/source/pmtiles/pmtiles.go:320-359 | for every file in which a plan of runs and leaf directories is laid out, up to four levels: the bytes that were put down for the id of the tile, and no tile for an id with none |
| ArchiveLayout.PutLaysOut | internal/source/pmtiles/pmtiles.go:254-359 | writing a plan, one node after the other and each leaf directory after what it points to, lays it out |
| ArchiveLayout.WrittenIsLaidOut | internal/source/pmtiles/pmtiles.go:109-116 | the root directory of a written archive is read back |
| ArchiveLayout.WriteThenRead | internal/source/pmtiles/pmtiles.go:109-359 | writing an archive, opening it and asking for a tile gives what was put down, and nothing else |
| ArchiveLayout.FirstTileExample | internal/source/pmtiles/pmtiles.go:343-359 | with tile data from byte 200 on and one entry of 100 bytes the first tile is bytes 200 to 299 |
| TileServer.AdmittedIdsDiffer | internal/tilemath/tilemath.go:29-35 | two tiles of the grid, and the guard of the server admits no others, have equal ids exactly when they are equal |
| TileServer.NumberIsRead | internal/server/tiles.go:47-59 | a number of 32 bits is read as it is written, a larger one is refused |
| TileServer.EveryTileCanBeAsked | internal/server/tiles.go:47-59 | a request can be written for every tile of the grid and for no other |
| TileServer.AdmittedIsInGrid | internal/server/tiles.go:47-59 | whatever is admitted is a tile of the grid of a zoom up to 24 |
| TileServer.ValidIff | internal/tilemath/tilemath.go:29-35 | and the tiles of the grid up to that zoom are all that is valid |
| TileServer.KeysDiffer | internal/server/tiles.go:93-93 | a cache key belongs to one tile of one layer |
| TileServer.LayerKeysAreSafe | internal/cache/disk.go:65-76 | the tiles of a layer with an admitted name can be kept on disk exactly when the name is neither of the two that stand for directories |
| TileServer.AnswerIsTheTile | internal/source/pmtiles/pmtiles.go:343-359 | an archive in which a plan for some tiles is laid out answers a tile of the grid with that tile, or with no tile when it is not among them |
| TileServer.EveryTileSetIsServed | internal/source/pmtiles/pmtiles.go:109-359 | for every set of up to 10,000,000 tiles there is an archive that, written and opened, answers with exactly these tiles |
| TileServer.SourceTile | internal/server/tiles.go:94-107 | the read behind a request returns what the source it has taken holds for the tile, damaged archives included; for an archive with some tiles laid out in it, the tile or none |
| TileServer.StepKeepsFresh | internal/server/tiles.go:76-110 | a step of any request, interleaved with the steps of all others, keeps everything in the cache and about to be stored up to date, and answers rightly |
| TileServer.FlightShows | internal/server/tiles.go:94-110 | what a request under way will store can be the answer of a later request |
| TileServer.AlwaysRightIff | internal/server/tiles.go:76-110 | from any state and as long as no source is replaced, every reply to a request that takes the present source is what that source holds, exactly when nothing in the cache and nothing about to be stored is out of date |
| TileServer.ReplaceStaysRightIff | internal/source/registry/registry.go:113-122 | replacing a source keeps every later reply right exactly when each tile that is cached for the name, and each that a request under way will still store for it, is the tile of the new source |
| TileServer.AnyReplacementIsRightIff | internal/source/registry/registry.go:113-122 | for every new source of these zooms: exactly when nothing of these zooms is cached for the name and no request under way will store anything of them |
| TileServer.RemoveStaysRight | internal/source/registry/registry.go:126-142 | removing a source makes no later reply wrong |
| TileServer.RemoveForgetsNothing | internal/source/registry/registry.go:113-142 | removing a source before a new one of its name comes is the same as replacing it |
| TileServer.LateStoreExample | internal/server/tiles.go:76-110 | with an empty cache and one request under way a replacement makes later replies wrong |
| TileServer.StaleTileExample | internal/source/registry/registry.go:113-122 | with a tile in the cache it does, too |
| TileServer.Handler.Begin | internal/server/tiles.go:76-91 | a request takes its tile and the source of its layer, or is refused |
| TileServer.Handler.LookInCache | internal/server/tiles.go:93-95 | a value of the cache is the answer, otherwise the request goes on |
| TileServer.Handler.ReadTile | internal/server/tiles.go:97-97 | the tile is read from the source that was taken |
| TileServer.Handler.Finish | internal/server/tiles.go:98-110 | the tile is stored when the source lets it, and answered |
| TileServer.Handler.Serve | internal/server/tiles.go:76-110 | the steps of one request in a row; right, and all later replies too, whenever they would have been before |
| TileServer.DeservedMeans | internal/server/tiles.go:76-107 | which answer stands for what: a malformed tile, an unknown layer, a zoom out of range or no tile, a failing source, the bytes |
| TileServer.Handler.Replace | internal/source/registry/registry.go:113-122 | the new source stands under the name; cache and requests under way are as before |
| TileServer.Handler.Remove | internal/source/registry/registry.go:126-142 | the source is gone; cache and requests under way are as before |
| Dbscan.CloseIsAround | internal/algo/cluster/dbscan.go:201-211 | points within eps lie in the 3x3 block of cells around each other, also where the cell number does not fit an int32 or wraps |
| Dbscan.CloseMeans | internal/algo/cluster/dbscan.go:210-226 | points are close up to and including the radius along either axis, and by the straight line otherwise |
| Dbscan.CountsItself | internal/algo/cluster/dbscan.go:210-226 | a point is one of its own neighbours, so with a threshold of one all points are core points |
| Dbscan.BuildGrid | internal/algo/cluster/dbscan.go:201-209 | every point is filed once, under its cell |
| Dbscan.Neighbours | internal/algo/cluster/dbscan.go:211-226 | the grid lookup finds the brute-force neighbourhood, each point once |
| Dbscan.Run | internal/algo/cluster/dbscan.go:228-275 | unless cancelled, terminates with the labelling of the density definition: core points share a label exactly when chained, border points take the least label around them, noise has no core neighbour, every id is used |
| Dbscan.NoiseIff | internal/algo/cluster/dbscan.go:228-275 | a point has label -1 exactly when no core point is close to it, itself included; every other point belongs to a cluster |
| Dbscan.ClusteringIsUnique | internal/algo/cluster/dbscan.go:228-275 | that definition, with clusters numbered by their first core points, has exactly one labelling |
| Dbscan.ChainKeepsLabel | internal/algo/cluster/dbscan.go:249-272 | a chain of core points never leaves its label |
| Dbscan.Absorb | internal/algo/cluster/dbscan.go:259-271 | a queued point that joins the cluster keeps everything around its core points labelled or queued |
| Dbscan.Summarize | internal/algo/cluster/dbscan.go:122-148 | the entry of every cluster below the count is there, with the number of its points, their sum and the exact box around them; the noise is counted |
| Dbscan.CentroidInBox | internal/algo/cluster/dbscan.go:140-148 | the centroid that is reported is the mean of the points of its cluster and lies in the box that is reported |
| Dbscan.CountsAddUp | internal/algo/cluster/dbscan.go:122-148 | cluster counts and noise count add up to the number of points |
| MapMatch.RouteIsAttained | internal/algo/routing/mapmatch.go:231-256 | a route distance between different edges is that of some route over the ends of both edges |
| MapMatch.RouteIsShortest | internal/algo/routing/mapmatch.go:231-256 | and no route whose walk is within the cutoff is shorter |
| MapMatch.RouteIsUnique | internal/algo/routing/mapmatch.go:231-256 | it is determined by the graph, the cutoff and the two candidates |
| MapMatch.OffsetsMeasure | internal/algo/routing/mapmatch.go:233-256 | the offsets over the two ends of an edge are measured along it and add up to its length |
| MapMatch.ExitIsEntry | internal/algo/routing/mapmatch.go:233-242 | the way out of a candidate over an end of its edge is as long as the way in over that end, and at the same node |
| MapMatch.SameEdgeIsStretch | internal/algo/routing/mapmatch.go:244-247 | on one edge the route distance is the stretch between the two candidates |
| MapMatch.DetourIsFound | internal/algo/routing/mapmatch.go:139-152 | no route of up to ten times the straight line and two kilometres more is missed |
| MapMatch.LongDetourIsMissed | internal/algo/routing/mapmatch.go:139-152 | and no distance counts a longer walk |
| MapMatch.EmissionMeans | internal/algo/routing/mapmatch.go:114-118 | a candidate scores 0 at distance 0, -1/2 at sigma and k times k times as much at k times the distance; only the ratio to sigma matters |
| MapMatch.NearerScoresMore | internal/algo/routing/mapmatch.go:114-118 | the nearer of two candidates scores more |
| MapMatch.TransitionMeans | internal/algo/routing/mapmatch.go:154-156 | a step along the straight line scores 0, one that differs from it by beta -1 and n times as much at n times the difference |
| MapMatch.NoWorseScoresMore | internal/algo/routing/mapmatch.go:154-171 | a step scores at least as much as another exactly when it differs no more from the straight line; no connection is as bad as a difference of 1000 times beta |
| MapMatch.Argmax | internal/algo/routing/mapmatch.go:221-229 | the first of the greatest values |
| MapMatch.TryPredecessor | internal/algo/routing/mapmatch.go:145-162 | one predecessor: one bounded search, then a candidate takes its score when it is the first or a better one |
| MapMatch.FillRow | internal/algo/routing/mapmatch.go:139-171 | every candidate of a row gets the best allowed step, a gap step only when nothing connects to it |
| MapMatch.TableIsUpperBound | internal/algo/routing/mapmatch.go:127-171 | no chain of candidates scores more than the table says |
| MapMatch.BackLinksAttain | internal/algo/routing/mapmatch.go:173-178 | following the back links gives an allowed chain with the score of the table |
| MapMatch.Viterbi | internal/algo/routing/mapmatch.go:127-178 | the chosen chain is allowed and no chain through all rows scores more |
| MapMatch.BestIsDominant | internal/algo/routing/mapmatch.go:127-178 | when some chain has nearest candidates and steps that no allowed step betters, so has the chosen one, at every point |
| MapMatch.NearestAreChosen | internal/algo/routing/mapmatch.go:127-178 | when a chain of nearest candidates is allowed and the steps of each row are alike, every chosen candidate is a nearest one of its row |
| MapMatch.LatticeIsUnique | internal/algo/routing/mapmatch.go:127-171 | the lattice the chain is chosen from is determined by the candidates |
| MapMatch.DropEmpty | internal/algo/routing/mapmatch.go:106-122 | trace points without candidates are dropped, the others kept in order |
| MapMatch.Run | internal/algo/routing/mapmatch.go:86-178 | from the candidates of all trace points to the best chain, which has nearest candidates and the straightest steps whenever some chain has; an error when fewer than two points have candidates |
| MatchedRoute.RouteGeometry | internal/algo/routing/mapmatch.go:258-291 | a straight line for one edge or no connection, otherwise a path over the ends of both edges whose length is the route distance without a bound |
| MatchedRoute.DrawnAgainstLattice | internal/algo/routing/mapmatch.go:231-291 | the drawn route is never longer than the distance of the lattice and exactly as long when a best way in is within the bound of the lattice's search |
| MatchedRoute.DrawnAsTheLatticeSays | internal/algo/routing/mapmatch.go:231-291 | so it is whenever the distance of the lattice is within that bound |
| MatchedRoute.DrawnShorterExample | internal/algo/routing/mapmatch.go:140-162 | two candidates whose drawn route has 2365 metres where the lattice counts 2705 |
| Lru.ApplyKeepsOk | internal/cache/cache.go:58-108 | every operation keeps keys distinct and the number of entries within the limit |
| Lru.Cache.constructor | internal/cache/cache.go:48-55 | an empty cache |
| Lru.Cache.Get | internal/cache/cache.go:58-80 | the list, the counters and the answer after a lookup; expired entries go; map and byte count keep in step with the list |
| Lru.Cache.Set | internal/cache/cache.go:83-108 | the list and the counters after a store; the last entry goes when the list is too long |
| Lru.Cache.EvictExcess | internal/cache/cache.go:100-107 | the eviction loop trims the list to the limit |
| Lru.Cache.Purge | internal/cache/cache.go:124-135 | the list is emptied, the counters stay, the number of entries is returned |
| Lru.Cache.Stats | internal/cache/cache.go:138-155 | entries and bytes are those of the list, the counters what has been counted, and the hit rate the share of the hits, none for no lookups |
| Lru.GetKeepsInclusion | internal/cache/cache.go:58-80 | a lookup keeps the smaller cache's list an ordered sub-list of the larger one's, and hits in the larger one where it hits in the smaller one |
| Lru.SetKeepsInclusion | internal/cache/cache.go:83-108 | a store keeps it, with evictions in either cache |
| Lru.Inclusion | internal/cache/cache.go:58-135 | for every run and any time to live the smaller cache holds an ordered sub-list of the larger one's entries |
| Lru.LargerNeverMissesMore | internal/cache/cache.go:58-135 | after every run a larger cache has at least as many hits and hits wherever the smaller one does, with the same value |
| Lru.RecencyOrder | internal/cache/cache.go:58-108 | after every run the entries stand in the order in which they were last stored or found |
| Lru.EvictsLeastRecent | internal/cache/cache.go:83-108 | a store evicts only when the cache is full and the key is new, and then the entry that has not been used for longest |
| Lru.SetThenGet | internal/cache/cache.go:58-108 | a value just stored is found exactly until its time to live has passed, in a cache that is on |
| Lru.GetRemovesExpired | internal/cache/cache.go:58-81 | a lookup that finds an entry too old removes it, and no lookup touches another |
| Lru.CountersCount | internal/cache/cache.go:58-81 | the counters are the numbers of lookups that found a value and that did not |
| DiskTier.Disk.Get | internal/cache/disk.go:78-103 | the files, the answer and the counters after a lookup; unsafe keys, expired files and failing operations |
| DiskTier.Disk.Set | internal/cache/disk.go:108-136 | a safe key is written with the current time, or nothing changes |
| DiskTier.WrittenThenRead | internal/cache/disk.go:78-136 | a value just written is read exactly when its key is safe and until its time to live has passed; under an unsafe key nothing is written |
| DiskTier.GetRemovesStale | internal/cache/disk.go:78-104 | a lookup that finds a file too old removes it, if it can be removed, and no lookup touches another |
| DiskTier.SafeKeyIff | internal/cache/disk.go:65-76 | a key is safe exactly when what stands before its first slash is a safe segment and what stands behind it is safe |
| DiskTier.UnsafeKeys | internal/cache/disk.go:65-76 | no key leads to the directory itself, out of it or to its root |
| DiskTier.Disk.Purge | internal/cache/disk.go:140-155 | what can be removed is removed and counted |
| DiskTier.Disk.Collect | internal/cache/disk.go:217-240 | the walk removes expired files and lists the others with their total size |
| DiskTier.Disk.DeleteOldest | internal/cache/disk.go:244-254 | the deletion loop: oldest first, until 90 per cent of the bound, and no more than needed |
| DiskTier.Disk.Sweep | internal/cache/disk.go:217-255 | a whole sweep: only expired files go unless the bound is exceeded; then no deleted file is newer than a removable one that stays, the target is met as far as files can be removed, and one deletion less would not do |
| Tiered.TieredCache.Get | internal/cache/tiered.go:36-48 | memory first, then disk, with promotion; either tier may be absent |
| Tiered.TieredCache.Set | internal/cache/tiered.go:51-57 | both tiers are written |
| Tiered.SetIsFound | internal/cache/tiered.go:36-62 | a value just set is found by way of either tier that keeps it |
| Tiered.FoundIsInMemory | internal/cache/tiered.go:36-49 | a value that a lookup has returned is the most recent entry in memory, so the next lookup finds it there |
| Tiered.TieredCache.Purge | internal/cache/tiered.go:88-93 | both tiers are emptied, as far as files can be removed |
| Tiered.CallKeepsCurrent | internal/cache/tiered.go:36-93 | everything that can still be returned stays the last value of its key exactly when the call is harmless: a failed disk write leaves no other live file, a purge leaves no live file |
| Tiered.NotCurrentShows | internal/cache/tiered.go:36-93 | whatever is not the last value can be returned, by a lookup or by one after a restart |
| Tiered.FailedWriteExample | internal/cache/tiered.go:36-57 | a value whose successor could not be written to disk is returned after a restart |
| Tiered.SequentialGetIsLast | internal/cache/tiered.go:36-57 | in every sequential run of harmless calls a lookup returns the last value set since the last purge, or nothing |
| Tiered.DiskGetInTwoSteps | internal/cache/disk.go:78-103 | looking at the age of a file and reading it are the lookup on disk when nothing comes between |
| Tiered.OnlySetsAdd | internal/cache/tiered.go:36-57 | what a lookup returns was held by a tier or a lookup under way, and only sets add to that |
| Tiered.StepKeepsAge | internal/cache/tiered.go:36-57 | one step of any interleaving keeps the ages of everything stored within the bound, and what it returns is within it too |
| Tiered.AgeBound | internal/cache/tiered.go:36-57 | in every interleaving and across restarts a returned value was set at most both times to live and the longest stall of a lookup ago |
| Tiered.SlowRunIsOld | internal/cache/tiered.go:36-48 | a lookup that stalls between its look at the file and its store reaches that bound |
| Tiered.AgeBoundIff | internal/cache/tiered.go:36-57 | so both times to live with a slack bound the age exactly when the slack is no less than the longest stall |
| Engine.BuildGrid | internal/source/memengine/memengine.go:106-117 | for any bounds, those of empty geometries included: every cell lists exactly the features whose cells cover it |
| Engine.New | internal/source/memengine/memengine.go:49-93 | fails exactly when there is no feature; otherwise the index of all of them |
| Engine.Index.constructor | internal/source/memengine/memengine.go:49-93 | the extent is the union of the bounds as the library builds it up, and the grid is built |
| Engine.Index.Query | internal/source/memengine/memengine.go:143-166 | the features that intersect the box and share a cell with it, ascending, each once |
| Engine.SortInts | internal/source/memengine/memengine.go:164-164 | the same numbers in ascending order |
| Engine.GridFinds | internal/source/memengine/memengine.go:119-141 | a feature that meets the box shares a cell with it when the greatest corner can be converted to an int |
| Engine.AnswerIsFilter | internal/source/memengine/memengine.go:143-166 | the query equals the linear filter when the grid misses none of the features that meet the box |
| Engine.IntersectsIff | internal/source/memengine/memengine.go:143-165 | boxes intersect exactly when they have a point in common |
| Engine.ExtentIsLeast | internal/source/memengine/memengine.go:49-92 | without empty geometries the extent is the least box around the features |
| Engine.UnionHolds | internal/source/memengine/memengine.go:49-92 | a union holds both operands, and the corners of an empty first one; an empty second one changes nothing |
| Engine.QueryExactIff | internal/source/memengine/memengine.go:119-166 | for every extent and box: the query equals the linear filter for all features of that extent exactly when a box that reaches into it has a greatest corner that can be converted, and, for a box around the unit square when geometries may be empty, it reaches into the extent and one cell lists the empty ones |
| Engine.QueryExample | internal/source/memengine/memengine.go:119-166 | a box up to 10^18 over one degree of features loses features |
| Engine.EmptyGeometryExample | internal/source/memengine/memengine.go:106-166 | a box all around two degrees of features: the filter lists an empty geometry, the index does not |
| Items.Features | internal/source/memengine/memengine.go:226-256 | offset and limit cut the page out of all matches |
| Items.HandleItems | internal/server/features.go:116-180 | bad parameters are refused; limit 100 by default and at most 10000; a next link exactly when matches are left |
| Items.PageMeans | internal/server/features.go:123-160 | a page has the matches from the offset on, as many as were asked for, 100 without a limit and at most 10000, or all that are left; the number of matches is that of all pages together, and there is a next link exactly when this page does not reach it |
| Items.MatchesExists | internal/server/features.go:116-180 | every request is about some list of matches |
| Items.MatchesIsUnique | internal/server/features.go:116-180 | and about no other, so the matches do not change from page to page |
| Items.NextIsLater | internal/server/features.go:150-160 | a next link is acceptable, keeps box and limit and moves on by exactly the limit |
| Items.FollowedIsRest | internal/server/features.go:150-160 | from any offset the pages are the rest of the matches |
| Items.FollowedIsAll | internal/server/features.go:116-160 | following the links from the start returns every match exactly once and in order, in as many requests as full pages are needed |
| SourceRegistry.Registry.Add | internal/source/registry/registry.go:42-43 | a source of the configuration is published |
| SourceRegistry.Registry.Replace | internal/source/registry/registry.go:113-122 | the new source is published, the old one retired and not closed |
| SourceRegistry.Registry.Remove | internal/source/registry/registry.go:126-142 | the source is hidden, taken out of the order, retired and not closed |
| SourceRegistry.Registry.Get | internal/source/registry/registry.go:145-150 | what is returned is open |
| SourceRegistry.Registry.Close | internal/source/registry/registry.go:221-238 | everything that was ever published is closed, exactly once |
| Admin.Validate | internal/config/config.go:250-314 | accepted exactly when port, keys, cache directory and MCP path are what the settings need, names are distinct and well formed, every source has what its type needs, and networks are distinct and built from configured sources |
| Admin.SourceOkIff | internal/config/config.go:270-298 | a source needs a name, what its type needs, and a zoom between its least and its greatest |
| Admin.ValidateKind | internal/config/config.go:281-295 | a database needs a connection string and a table, a file its path, and there are no other kinds |
| Admin.SavedConfigIsValid | internal/server/admin_sources.go:187-215 | the second validation of a save never refuses what the first has let through |
| Admin.SavedIff | internal/server/admin_sources.go:165-226 | a save succeeds exactly when the configuration has a file, the candidate is well formed, opens and answers, and the file can be written |
| Admin.DeletedIff | internal/server/admin_sources.go:229-268 | a deletion succeeds exactly when the configuration has a file, knows the name and stays valid without it, and the file can be written |
| Admin.SecretIsItsOwn | internal/server/admin_sources.go:116-127 | an empty connection string of a database stands for that of the first source of the same name and kind; everything else stays as it is |
| Admin.DropStaysValidIff | internal/server/admin_sources.go:236-256 | a source may go exactly when it is not the only one and no network is built from it |
| Admin.Upserted | internal/server/admin_sources.go:195-206 | the candidate takes the place of the source of its name, or comes last |
| Admin.Dropped | internal/server/admin_sources.go:236-245 | the sources of other names are kept in order |
| Admin.Server.Probe | internal/server/admin_sources.go:181-192 | a candidate that does not answer is closed |
| Admin.Server.Save | internal/server/admin_sources.go:165-227 | the answer for every outcome; after a refusal nothing has changed and the candidate is closed, after success live configuration, file and registry have changed together |
| Admin.Server.Delete | internal/server/admin_sources.go:229-268 | the same for a deletion |
| Admin.Server.Shutdown | internal/source/registry/registry.go:221-238 | everything that was ever opened has been closed exactly once |
| Admin.Build | internal/source/registry/registry.go:34-46 | on the first source that does not open, those opened before are closed, once each |
| Admin.Serve | internal/server/admin_sources.go:165-268 | after any sequence of requests and outcomes the server is in step and its configuration is what the accepted requests have made of it |
| Admin.Life | internal/server/admin_sources.go:165-268 | over a whole life every source ever opened has been closed exactly once at the end |

## Left out

- Search.PopMin: `container/heap` is a multiset from which some item of least priority is taken; the array form of the heap is library code.
- Directory.DecodeDirectory: the eight error messages are one error, and decompression is a parameter.
- Varint.ReadUvarint: `encoding/binary` is library code; its reader is modelled because the round trip rests on it.
- Lookup.Tile: the header of an archive is taken as read; `parseHeader` only copies fields.
- ArchiveLayout.WriteThenRead: the repository only reads archives; what is written follows the format, with header and metadata as any bytes.
- Dbscan.Run: the points are already projected to metres; the projection rests on a cosine.
- Dbscan.Summarize: the sums are exact reals.
- Isochrone.ContourSegments: rings stay on the doubled integer lattice; `toLonLat` stands beside them (`BinaryGrid.ContourIsHalfway`), and `assemblePolygons` rests on simplification and area code of a library.
- Isochrone.ContourGrid: the refused sizes are one outcome; NaN and infinite sizes are not numbers of this model, and the suggested size is the number itself, before the message rounds it to three digits.
- MapMatch.Run: the candidates of a trace point are inputs.
- MatchedRoute.RouteGeometry: the path stands for the line drawn along it; straight lines are not measured.
- Networks.Manager.Get: the mutex is not modelled, a call is one step; what the source yields, at most 500000 features, is an input.
- Builder.Build: features come with their lines, levels, speeds and directions already read from properties.
- Lru.Cache.Get: the mutex is not modelled, a call is one step; the list is a sequence of element objects, so its links are not.
- Tiered.TieredCache.Get: a call takes no time; the interleaved runs let time pass between its parts.
- Tiered.StepOf: a set writes its file and renames it in one step, with the time of the write; a stale file is removed in the step that looked at it.
- DiskTier.Disk.Sweep: temporary files of crashed writes, directories and paths are not modelled; the order among equal write times is any order.
- SourceRegistry.Registry.Close: sources are closed in some order, the source closes the visible ones in name order.
- Admin.Server.Save: decoding the request body and trimming its strings; a file that cannot be replaced is unchanged, as the rename at the end of `SaveSources` makes it.
- Admin.Validate: the checks on the asset policy are one flag.
- Engine.Index.Query: ids and properties of features, and vector tiles made from the result. Bounds are inputs; `Union` and the bound of an empty geometry are those of version 0.13.0 of the geometry library.
- `internal/algo/network/index.go`: not part of this model; start and end nodes and nearby edges are given.
- TileServer.Handler.Serve: the extension of the request, compression and entity tags. The tile cache is what its tiers and the lookups inside it hold (`Tiered.OnlySetsAdd`); which of the values held for a key it returns is any. What a source other than a PMTiles archive holds is a function of the tile.
- ShortestPath.Run: snapping the endpoints to nodes, the set of levels visited, and the rounding of the numbers in the answer.
- HTTP routing, authentication, metrics, documents, the command line, database and file formats other than PMTiles: no deep property, or behaviour of drivers that cannot be seen here.
